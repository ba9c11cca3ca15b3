/**
 Identities, the two derivations of a pair key, and encryption under an explicit key.

 The primitives (X25519, HKDF-SHA256, ChaCha20-Poly1305) are parameters. What the
 results need of them is stated as a law each theorem asks for by name.
 */
module Keys {
  import opened Wrappers
  import opened Text

  const NONCE_LENGTH: nat := 12

  // -------------------------------------------------------------- hexadecimal

  function HexValue(c: char): Option<nat> {
    if '0' <= c <= '9' then Some(c as int - '0' as int)
    else if 'A' <= c <= 'F' then Some(c as int - 'A' as int + 10)
    else if 'a' <= c <= 'f' then Some(c as int - 'a' as int + 10)
    else None
  }

  function HexDigit(n: nat): (c: char)
    requires n < 16
    ensures HexValue(c) == Some(n) && UpperChar(c) == c && !IsWhitespace(c)
  {
    if n < 10 then (n + '0' as int) as char else (n - 10 + 'A' as int) as char
  }

  function DecodeHex(s: string): Option<seq<byte>> {
    if s == [] then Some([])
    else if |s| == 1 then None
    else
      match (HexValue(s[0]), HexValue(s[1]), DecodeHex(s[2..]))
      case (Some(high), Some(low), Some(rest)) => Some([high * 16 + low] + rest)
      case _ => None
  }

  function EncodeUpper(b: seq<byte>): (s: string)
    ensures |s| == 2 * |b|
  {
    if b == [] then [] else [HexDigit(b[0] / 16), HexDigit(b[0] % 16)] + EncodeUpper(b[1..])
  }

  lemma {:induction false} HexReadsBack(b: seq<byte>)
    ensures DecodeHex(EncodeUpper(b)) == Some(b)
  {
    if b != [] {
      var s, rest := EncodeUpper(b), EncodeUpper(b[1..]);
      assert s[0] == HexDigit(b[0] / 16) && s[1] == HexDigit(b[0] % 16) && s[2..] == rest;
      HexReadsBack(b[1..]);
      assert b == [b[0]] + b[1..];
    }
  }

  lemma {:induction false} HexHasNoWhitespace(b: seq<byte>)
    ensures forall i :: 0 <= i < 2 * |b| ==> !IsWhitespace(EncodeUpper(b)[i])
  {
    if b != [] { HexHasNoWhitespace(b[1..]); }
  }

  lemma HexDigitIgnoresCase(c: char)
    ensures HexValue(UpperChar(c)) == HexValue(c)
    ensures HexValue(c).Some? ==> HexValue(c).value < 16 && HexDigit(HexValue(c).value) == UpperChar(c)
  {
  }

  lemma DecodesInPairs(s: string)
    requires |s| >= 2
    ensures DecodeHex(s)
         == match (HexValue(s[0]), HexValue(s[1]), DecodeHex(s[2..]))
            case (Some(high), Some(low), Some(rest)) => Some([high * 16 + low] + rest)
            case _ => None
  {
  }

  lemma UpperInPairs(s: string)
    requires |s| >= 2
    ensures ToAsciiUpper(s) == [UpperChar(s[0]), UpperChar(s[1])] + ToAsciiUpper(s[2..])
    ensures ToAsciiUpper(s)[2..] == ToAsciiUpper(s[2..])
  {
  }

  lemma {:induction false} HexIgnoresCase(s: string)
    ensures DecodeHex(ToAsciiUpper(s)) == DecodeHex(s)
    ensures DecodeHex(s).Some? ==> EncodeUpper(DecodeHex(s).value) == ToAsciiUpper(s)
  {
    if |s| >= 2 {
      HexIgnoresCase(s[2..]);
      HexDigitIgnoresCase(s[0]);
      HexDigitIgnoresCase(s[1]);
      UpperInPairs(s);
      DecodesInPairs(s);
      DecodesInPairs(ToAsciiUpper(s));
      if DecodeHex(s).Some? {
        DecodedPair(HexValue(s[0]).value, HexValue(s[1]).value, DecodeHex(s[2..]).value);
      }
    }
  }

  lemma DecodedPair(high: nat, low: nat, rest: seq<byte>)
    requires high < 16 && low < 16
    ensures EncodeUpper([high * 16 + low] + rest) == [HexDigit(high), HexDigit(low)] + EncodeUpper(rest)
  {
    var n: byte := high * 16 + low;
    assert n / 16 == high && n % 16 == low;
    assert ([n] + rest)[1..] == rest;
  }

  /** The announced form of a public key: 64 uppercase hexadecimal characters. */
  function PublicHex(k: Key): string {
    EncodeUpper(k)
  }

  function PublicKeyFromHex(s: string): Option<Key> {
    match DecodeHex(Trim(s))
    case Some(b) => if |b| == KEY_LENGTH then Some(b) else None
    case None => None
  }

  function NormalizeIdentity(s: string): string {
    ToAsciiUpper(Trim(s))
  }

  /**
   An announcement is read as a key exactly when, trimmed and upper-cased, it is the
   form that key is announced in. So the parser and the normal form used by the
   static derivation accept the same spellings of one identity.
   */
  lemma AnnouncedKeyIff(s: string, k: Key)
    ensures PublicKeyFromHex(s) == Some(k) <==> NormalizeIdentity(s) == PublicHex(k)
  {
    HexIgnoresCase(Trim(s));
    HexReadsBack(k);
  }

  predicate IsHexDigit(c: char) {
    '0' <= c <= '9' || 'A' <= c <= 'F' || 'a' <= c <= 'f'
  }

  lemma {:induction false} DecodesIff(s: string)
    ensures DecodeHex(s).Some? <==> |s| % 2 == 0 && forall i :: 0 <= i < |s| ==> IsHexDigit(s[i])
    ensures DecodeHex(s).Some? ==> 2 * |DecodeHex(s).value| == |s|
  {
    if |s| >= 2 {
      DecodesIff(s[2..]);
      assert forall i :: 2 <= i < |s| ==> s[i] == s[2..][i - 2];
    }
  }

  /** An announcement is usable exactly when, trimmed, it is 64 hexadecimal digits. */
  lemma UsableKeyIff(s: string)
    ensures PublicKeyFromHex(s).Some?
       <==> |Trim(s)| == 64 && forall i :: 0 <= i < |Trim(s)| ==> IsHexDigit(Trim(s)[i])
  {
    DecodesIff(Trim(s));
  }

  lemma PublicHexReadsBack(k: Key)
    ensures Trim(PublicHex(k)) == PublicHex(k) && PublicHex(k) != ""
    ensures PublicKeyFromHex(PublicHex(k)) == Some(k)
    ensures NormalizeIdentity(PublicHex(k)) == PublicHex(k)
  {
    HexReadsBack(k);
    HexHasNoWhitespace(k);
    assert "" + PublicHex(k) + "" == PublicHex(k);
    TrimUnique("", PublicHex(k), "");
    AnnouncedKeyIff(PublicHex(k), k);
  }

  // --------------------------------------------------------------- primitives

  datatype Primitives = Primitives(
    basepoint: Key,
    x25519: (Key, Key) -> Key,
    hkdf: (seq<byte>, seq<byte>, seq<byte>) -> Key, // salt, input key material, info
    seal: (Key, seq<byte>, seq<byte>) -> seq<byte>, // key, nonce, plaintext
    unseal: (Key, seq<byte>, seq<byte>) -> Option<seq<byte>>,
    utf8: string -> seq<byte>)

  /** X25519 on public keys commutes (section 6.1 of RFC 7748). */
  ghost predicate Commutes(p: Primitives) {
    forall a: Key, b: Key ::
      p.x25519(a, p.x25519(b, p.basepoint)) == p.x25519(b, p.x25519(a, p.basepoint))
  }

  /**
   An ideal AEAD: a sealed box is never empty, opens under its own key and nonce, and
   does not open under any other key.
   */
  ghost predicate IdealAead(p: Primitives) {
    && (forall k: Key, n: seq<byte>, m: seq<byte> ::
          |p.seal(k, n, m)| > 0 && p.unseal(k, n, p.seal(k, n, m)) == Some(m))
    && (forall k: Key, k': Key, n: seq<byte>, m: seq<byte> ::
          k != k' ==> p.unseal(k', n, p.seal(k, n, m)) == None)
  }

  function AddByte(a: byte, b: byte): byte {
    (a + b) % 256
  }

  function AddBytes(a: Key, b: Key): Key {
    seq(KEY_LENGTH, i requires 0 <= i < KEY_LENGTH => AddByte(a[i], b[i]))
  }

  function Repeated(b: byte): Key {
    seq(KEY_LENGTH, i requires 0 <= i < KEY_LENGTH => b)
  }

  function FirstPart(salt: seq<byte>, ikm: seq<byte>, info: seq<byte>): Key {
    if |info| >= KEY_LENGTH then info[..KEY_LENGTH] else Repeated(0)
  }

  function Prefixed(k: Key, nonce: seq<byte>, plaintext: seq<byte>): seq<byte> {
    k + plaintext
  }

  function Unprefixed(k: Key, nonce: seq<byte>, box: seq<byte>): Option<seq<byte>> {
    if k <= box then Some(box[KEY_LENGTH..]) else None
  }

  function NoBytes(s: string): seq<byte> {
    []
  }

  /** Primitives that keep the laws: public keys are secrets, agreement adds, sealing prefixes the key. */
  function AdditivePrimitives(): Primitives {
    Primitives(Repeated(0), AddBytes, FirstPart, Prefixed, Unprefixed, NoBytes)
  }

  lemma AddZero(x: Key)
    ensures AddBytes(x, Repeated(0)) == x && AddBytes(Repeated(0), x) == x
  {
  }

  lemma AdditiveLaws()
    ensures Commutes(AdditivePrimitives()) && IdealAead(AdditivePrimitives())
  {
    forall x: Key, y: Key ensures AddBytes(x, AddBytes(y, Repeated(0))) == AddBytes(y, AddBytes(x, Repeated(0))) {
      AddZero(x);
      AddZero(y);
      assert forall i :: 0 <= i < KEY_LENGTH ==> AddByte(x[i], y[i]) == AddByte(y[i], x[i]);
    }
    forall k: Key, n: seq<byte>, m: seq<byte> ensures Unprefixed(k, n, Prefixed(k, n, m)) == Some(m) {
      assert (k + m)[KEY_LENGTH..] == m;
    }
    forall k: Key, k': Key, n: seq<byte>, m: seq<byte> | k != k'
      ensures Unprefixed(k', n, Prefixed(k, n, m)) == None
    {
      assert (k + m)[..KEY_LENGTH] == k;
    }
  }

  /** The laws can be met together, by primitives under which public keys differ. */
  lemma LawsAreConsistent() returns (p: Primitives, a: Key, b: Key)
    ensures Commutes(p) && IdealAead(p)
    ensures p.x25519(a, p.basepoint) != p.x25519(b, p.basepoint)
  {
    p, a, b := AdditivePrimitives(), Repeated(0), Repeated(1);
    AdditiveLaws();
    AddZero(a);
    AddZero(b);
    assert a[0] != b[0];
  }

  /** A static identity or a per-connection ephemeral: a scalar and its public half. */
  datatype KeyPair = KeyPair(secret: Key, public: Key)

  function FromSecret(p: Primitives, secret: Key): KeyPair {
    KeyPair(secret, p.x25519(secret, p.basepoint))
  }

  function Agree(p: Primitives, own: KeyPair, peerPublic: Key): Key {
    p.x25519(own.secret, peerPublic)
  }

  // --------------------------------------------------------------- agreed key

  function AsciiBytes(s: string): seq<byte> {
    seq(|s|, i requires 0 <= i < |s| => s[i] as int % 256)
  }

  const PAIR_KEY_LABEL: seq<byte> := AsciiBytes("metaText/contact-key/v2")
  const CONTACT_KEY_LABEL: seq<byte> := AsciiBytes("metaText/contact-key/v1")

  /** The three Diffie-Hellman values, in the order both ends are meant to use. */
  function PairInfo(p: Primitives, ownStatic: KeyPair, ownEphemeral: KeyPair,
                    peerStatic: Key, peerEphemeral: Key): (info: seq<byte>)
    ensures |info| == 3 * KEY_LENGTH
  {
    var staticStatic := Agree(p, ownStatic, peerStatic);
    var mine := p.x25519(ownEphemeral.secret, peerStatic);
    var theirs := Agree(p, ownStatic, peerEphemeral);
    if LexLe(ownStatic.public, peerStatic)
    then staticStatic + mine + theirs
    else staticStatic + theirs + mine
  }

  /** The label is HKDF's salt and the session key its input key material. */
  function PairKey(p: Primitives, session: Key, ownStatic: KeyPair, ownEphemeral: KeyPair,
                   peerStatic: Key, peerEphemeral: Key): Key {
    p.hkdf(PAIR_KEY_LABEL, session, PairInfo(p, ownStatic, ownEphemeral, peerStatic, peerEphemeral))
  }

  lemma ThreePartsEqual(a: Key, b: Key, c: Key, x: Key, y: Key, z: Key)
    ensures a + b + c == x + y + z <==> a == x && b == y && c == z
  {
    var s, t := a + b + c, x + y + z;
    assert s[..KEY_LENGTH] == a && s[KEY_LENGTH..2 * KEY_LENGTH] == b && s[2 * KEY_LENGTH..] == c;
    assert t[..KEY_LENGTH] == x && t[KEY_LENGTH..2 * KEY_LENGTH] == y && t[2 * KEY_LENGTH..] == z;
  }

  /**
   The two ends of a connection expand the same HKDF info, whatever their ephemerals,
   exactly when their static keys differ. Two ends with one static key both put their
   own ephemeral first, so they agree only if the swapped values happen to coincide.
   */
  lemma PairInfoAgreesIff(p: Primitives, a: Key, ea: Key, b: Key, eb: Key)
    requires Commutes(p)
    ensures (var (sa, xa) := (FromSecret(p, a), FromSecret(p, ea));
             var (sb, xb) := (FromSecret(p, b), FromSecret(p, eb));
             PairInfo(p, sa, xa, sb.public, xb.public) == PairInfo(p, sb, xb, sa.public, xa.public))
       <==> FromSecret(p, a).public != FromSecret(p, b).public
            || p.x25519(ea, FromSecret(p, b).public) == p.x25519(eb, FromSecret(p, a).public)
  {
    var (sa, xa, sb, xb) :=
      (FromSecret(p, a), FromSecret(p, ea), FromSecret(p, b), FromSecret(p, eb));
    var v1 := p.x25519(a, sb.public);
    var va := p.x25519(ea, sb.public);
    var vb := p.x25519(eb, sa.public);
    assert v1 == p.x25519(b, sa.public) && va == p.x25519(b, xa.public) && vb == p.x25519(a, xb.public);
    LexTotal(sa.public, sb.public);
    if sa.public == sb.public {
      ThreePartsEqual(v1, va, vb, v1, vb, va);
    } else if LexLe(sa.public, sb.public) && LexLe(sb.public, sa.public) {
      LexAntisymmetric(sa.public, sb.public);
      assert false;
    }
  }

  /** Both ends of a connection compute the same agreed key, in either sort order. */
  lemma PairKeyIsShared(p: Primitives, session: Key, a: Key, ea: Key, b: Key, eb: Key)
    requires Commutes(p)
    requires FromSecret(p, a).public != FromSecret(p, b).public
    ensures PairKey(p, session, FromSecret(p, a), FromSecret(p, ea),
                    FromSecret(p, b).public, FromSecret(p, eb).public)
         == PairKey(p, session, FromSecret(p, b), FromSecret(p, eb),
                    FromSecret(p, a).public, FromSecret(p, ea).public)
  {
    PairInfoAgreesIff(p, a, ea, b, eb);
  }

  // --------------------------------------------------------------- static key

  /** `None` is the source's error: one of the identities is blank. */
  function ContactKey(p: Primitives, session: Key, own: string, peer: string): Option<Key> {
    var a, b := NormalizeIdentity(own), NormalizeIdentity(peer);
    if a == "" || b == "" then None
    else
      var (low, high) := if StringLe(a, b) then (a, b) else (b, a);
      Some(p.hkdf(CONTACT_KEY_LABEL, session, p.utf8(low + ":" + high)))
  }

  /** The two ends get one static key (or both fail) whichever order they name the pair in. */
  lemma ContactKeyIsSymmetric(p: Primitives, session: Key, a: string, b: string)
    ensures ContactKey(p, session, a, b) == ContactKey(p, session, b, a)
  {
    var (x, y) := (NormalizeIdentity(a), NormalizeIdentity(b));
    StringLeTotal(x, y);
    if StringLe(x, y) && StringLe(y, x) { StringLeAntisymmetric(x, y); }
  }

  /** Surrounding white space and the case of letters do not change an identity's normal form. */
  lemma NormalFormIgnoresSpelling(lead: string, a: string, trail: string, b: string)
    requires AllWhitespace(lead) && AllWhitespace(trail) && ToAsciiUpper(a) == ToAsciiUpper(b)
    ensures NormalizeIdentity(lead + a + trail) == NormalizeIdentity(b)
  {
    TrimAbsorbs(lead, a, trail);
    UpperTrim(a);
    UpperTrim(b);
  }

  /** The static key depends on neither argument's spelling nor on the argument order. */
  lemma ContactKeyIgnoresSpelling(p: Primitives, session: Key,
                                  l1: string, a: string, t1: string, a': string,
                                  l2: string, b: string, t2: string, b': string)
    requires AllWhitespace(l1) && AllWhitespace(t1) && ToAsciiUpper(a) == ToAsciiUpper(a')
    requires AllWhitespace(l2) && AllWhitespace(t2) && ToAsciiUpper(b) == ToAsciiUpper(b')
    ensures ContactKey(p, session, l1 + a + t1, l2 + b + t2) == ContactKey(p, session, b', a')
  {
    NormalFormIgnoresSpelling(l1, a, t1, a');
    NormalFormIgnoresSpelling(l2, b, t2, b');
    ContactKeyIsSymmetric(p, session, a', b');
  }

  // --------------------------------------------------------------- encryption

  /** The session's cipher. A disabled one passes payloads through unchanged. */
  datatype Crypto = Crypto(p: Primitives, enabled: bool, session: Key) {

    function EncryptWith(key: Key, nonce: seq<byte>, plaintext: seq<byte>): seq<byte> {
      if !enabled then plaintext else nonce + p.seal(key, nonce, plaintext)
    }

    function DecryptWith(key: Key, data: seq<byte>): Option<seq<byte>> {
      if !enabled then Some(data)
      else if |data| <= NONCE_LENGTH then None
      else p.unseal(key, data[..NONCE_LENGTH], data[NONCE_LENGTH..])
    }

    /** The candidate keys in order, then the session key. */
    function TryKeys(keys: seq<Key>, data: seq<byte>): Option<seq<byte>> {
      if keys == [] then DecryptWith(session, data)
      else
        match DecryptWith(keys[0], data)
        case Some(plaintext) => Some(plaintext)
        case None => TryKeys(keys[1..], data)
    }

    /** The loop of `decrypt_from`: the first candidate that opens the frame wins. */
    method DecryptFrom(keys: seq<Key>, data: seq<byte>) returns (r: Option<seq<byte>>)
      ensures r == TryKeys(keys, data)
    {
      for i := 0 to |keys|
        invariant TryKeys(keys, data) == TryKeys(keys[i..], data)
      {
        var attempt := DecryptWith(keys[i], data);
        if attempt.Some? {
          return attempt;
        }
        assert keys[i..][1..] == keys[i + 1..];
      }
      r := DecryptWith(session, data);
    }

    lemma OpensUnder(key: Key, other: Key, nonce: seq<byte>, plaintext: seq<byte>)
      requires IdealAead(p) && |nonce| == NONCE_LENGTH
      ensures DecryptWith(other, EncryptWith(key, nonce, plaintext))
           == if !enabled || other == key then Some(plaintext) else None
    {
      var box := p.seal(key, nonce, plaintext);
      assert (nonce + box)[..NONCE_LENGTH] == nonce && (nonce + box)[NONCE_LENGTH..] == box;
    }

    /**
     A receiver recovers a sealed payload exactly when the key it was sealed under is
     among its candidates or is the session key, and otherwise recovers nothing.
     */
    lemma {:induction false} LadderOpensIff(keys: seq<Key>, key: Key, nonce: seq<byte>, plaintext: seq<byte>)
      requires IdealAead(p) && |nonce| == NONCE_LENGTH
      ensures TryKeys(keys, EncryptWith(key, nonce, plaintext))
           == if !enabled || key in keys || key == session then Some(plaintext) else None
      decreases |keys|
    {
      if keys == [] {
        OpensUnder(key, session, nonce, plaintext);
      } else {
        OpensUnder(key, keys[0], nonce, plaintext);
        LadderOpensIff(keys[1..], key, nonce, plaintext);
        assert keys == [keys[0]] + keys[1..];
      }
    }
  }

  /** The keys of one pair, narrowest first: the agreed key, then the static derivation. */
  function PairKeys(p: Primitives, session: Key, own: KeyPair, ownEphemeral: KeyPair,
                    peerIdentity: string, peerEphemeral: Option<string>): seq<Key> {
    var peerKey := if peerEphemeral.Some? then PublicKeyFromHex(peerEphemeral.value) else None;
    var agreed :=
      match (PublicKeyFromHex(peerIdentity), peerKey)
      case (Some(peerStatic), Some(ephemeral)) => [PairKey(p, session, own, ownEphemeral, peerStatic, ephemeral)]
      case _ => [];
    var derived :=
      match ContactKey(p, session, PublicHex(own.public), peerIdentity)
      case Some(key) => [key]
      case None => [];
    agreed + derived
  }
}
