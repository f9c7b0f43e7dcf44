/** Decoding undoes the encoding of section 4 of RFC 4648, and the other way round. */
module Base64Theorems {
  import opened Common
  import opened Base64

  // -------------------------------------------------- the standard's encoding

  function Sextet0(a: bv8): bv8 { a >> 2 }
  function Sextet1(a: bv8, b: bv8): bv8 { ((a & 0x03) << 4) | (b >> 4) }
  function Sextet2(b: bv8, c: bv8): bv8 { ((b & 0x0F) << 2) | (c >> 6) }
  function Sextet3(c: bv8): bv8 { c & 0x3F }

  /** The character for a sextet. */
  function Char(s: bv8): Octet
    requires s < 64
  {
    Symbol(s as int)
  }

  lemma SextetsSmall(a: bv8, b: bv8, c: bv8)
    ensures Sextet0(a) < 64 && Sextet1(a, b) < 64 && Sextet2(b, c) < 64 && Sextet3(c) < 64
  {
  }

  datatype Quad = Quad(c0: Octet, c1: Octet, c2: Octet, c3: Octet)

  function One(a: bv8): Quad {
    SextetsSmall(a, 0, 0);
    Quad(Char(Sextet0(a)), Char(Sextet1(a, 0)), '=', '=')
  }

  function Two(a: bv8, b: bv8): Quad {
    SextetsSmall(a, b, 0);
    Quad(Char(Sextet0(a)), Char(Sextet1(a, b)), Char(Sextet2(b, 0)), '=')
  }

  function Three(a: bv8, b: bv8, c: bv8): Quad {
    SextetsSmall(a, b, c);
    Quad(Char(Sextet0(a)), Char(Sextet1(a, b)), Char(Sextet2(b, c)), Char(Sextet3(c)))
  }

  /** How groups of one, two and three bytes are written. */
  datatype Alphabet = Alphabet(one: bv8 -> Quad, two: (bv8, bv8) -> Quad, three: (bv8, bv8, bv8) -> Quad)

  function Standard(): Alphabet { Alphabet(One, Two, Three) }

  function TextOfQuad(q: Quad): Text { [q.c0, q.c1, q.c2, q.c3] }

  /** Three bytes at a time; one or two bytes at the end are padded. */
  function EncodeWith(e: Alphabet, bytes: seq<bv8>): Text {
    if bytes == [] then []
    else if |bytes| == 1 then TextOfQuad(e.one(bytes[0]))
    else if |bytes| == 2 then TextOfQuad(e.two(bytes[0], bytes[1]))
    else TextOfQuad(e.three(bytes[0], bytes[1], bytes[2])) + EncodeWith(e, bytes[3..])
  }

  /** The encoding of the standard. */
  function Encode(bytes: seq<bv8>): Text { EncodeWith(Standard(), bytes) }

  /** How many '=' characters an encoding ends with. */
  function Padding(n: nat): nat { (3 - n % 3) % 3 }

  function Zeros(n: nat): seq<bv8> { if n == 0 then [] else [0] + Zeros(n - 1) }

  // ------------------------------------------------------------ bits and values

  lemma BitsOfSmall(v: int)
    requires 0 <= v < 64
    ensures Bits(v) as int == v && Bits(v) < 64
  {
    SmallByte(v as bv8);
  }

  /** The order of the numbers is the order of the bits. */
  lemma SmallByte(b: bv8)
    ensures (b as int < 64) <==> b < 64
  {
  }

  lemma SameNumberSameBits(a: bv8, b: bv8)
    requires a as int == b as int
    ensures a == b
  {
  }

  /** Looking a sextet's character up gives the sextet back. */
  lemma CharLookup(s: bv8)
    requires s < 64
    ensures 0 <= Lookup(Char(s)) < 64 && Bits(Lookup(Char(s))) == s
  {
    TablesInverse('=', s as int);
    BitsOfSmall(s as int);
    SameNumberSameBits(Bits(s as int), s);
  }

  /** A table value's bits name the same character. */
  lemma LookupChar(c: Octet)
    requires Lookup(c) >= 0
    ensures Lookup(c) < 64 && Bits(Lookup(c)) < 64 && Char(Bits(Lookup(c))) == c
  {
    TablesInverse(c, 0);
    BitsOfSmall(Lookup(c));
  }

  lemma JoinBits(a: bv8, b: bv8, c: bv8)
    ensures (Sextet0(a) << 2) | (Sextet1(a, b) >> 4) == a
    ensures ((Sextet1(a, b) & 0x0F) << 4) | (Sextet2(b, c) >> 2) == b
    ensures ((Sextet2(b, c) & 0x03) << 6) | Sextet3(c) == c
  {
  }

  lemma SplitBits(s0: bv8, s1: bv8, s2: bv8, s3: bv8)
    requires s0 < 64 && s1 < 64 && s2 < 64 && s3 < 64
    ensures Sextet0((s0 << 2) | (s1 >> 4)) == s0
    ensures Sextet1((s0 << 2) | (s1 >> 4), ((s1 & 0x0F) << 4) | (s2 >> 2)) == s1
    ensures Sextet2(((s1 & 0x0F) << 4) | (s2 >> 2), ((s2 & 0x03) << 6) | s3) == s2
    ensures Sextet3(((s2 & 0x03) << 6) | s3) == s3
  {
  }

  // ------------------------------------------------------------- one quad

  lemma QuadOfValues(c0: Octet, c1: Octet, c2: Octet, c3: Octet, s0: bv8, s1: bv8, s2: bv8, s3: bv8)
    requires Lookup(c0) >= 0 && Lookup(c1) >= 0 && Lookup(c2) >= 0 && Lookup(c3) >= 0
    requires Bits(Lookup(c0)) == s0 && Bits(Lookup(c1)) == s1 && Bits(Lookup(c2)) == s2 && Bits(Lookup(c3)) == s3
    ensures QuadBytes(c0, c1, c2, c3) == [(s0 << 2) | (s1 >> 4), ((s1 & 0x0F) << 4) | (s2 >> 2), ((s2 & 0x03) << 6) | s3]
  {
  }

  lemma ThreeUndone(a: bv8, b: bv8, c: bv8)
    ensures var q := Three(a, b, c); QuadBytes(q.c0, q.c1, q.c2, q.c3) == [a, b, c]
  {
    SextetsSmall(a, b, c);
    var s0, s1, s2, s3 := Sextet0(a), Sextet1(a, b), Sextet2(b, c), Sextet3(c);
    CharLookup(s0);
    CharLookup(s1);
    CharLookup(s2);
    CharLookup(s3);
    QuadOfValues(Char(s0), Char(s1), Char(s2), Char(s3), s0, s1, s2, s3);
    JoinBits(a, b, c);
  }

  lemma QuadOfTwo(c0: Octet, c1: Octet, c2: Octet, s0: bv8, s1: bv8, s2: bv8)
    requires Lookup(c0) >= 0 && Lookup(c1) >= 0 && Lookup(c2) >= 0
    requires Bits(Lookup(c0)) == s0 && Bits(Lookup(c1)) == s1 && Bits(Lookup(c2)) == s2
    ensures QuadBytes(c0, c1, c2, '=') == [(s0 << 2) | (s1 >> 4), ((s1 & 0x0F) << 4) | (s2 >> 2), 0]
  {
  }

  lemma TwoUndone(a: bv8, b: bv8)
    ensures var q := Two(a, b); QuadBytes(q.c0, q.c1, q.c2, q.c3) == [a, b, 0]
  {
    SextetsSmall(a, b, 0);
    var s0, s1, s2 := Sextet0(a), Sextet1(a, b), Sextet2(b, 0);
    CharLookup(s0);
    CharLookup(s1);
    CharLookup(s2);
    QuadOfTwo(Char(s0), Char(s1), Char(s2), s0, s1, s2);
    JoinBits(a, b, 0);
  }

  lemma QuadOfOne(c0: Octet, c1: Octet, s0: bv8, s1: bv8)
    requires Lookup(c0) >= 0 && Lookup(c1) >= 0
    requires Bits(Lookup(c0)) == s0 && Bits(Lookup(c1)) == s1
    ensures QuadBytes(c0, c1, '=', '=') == [(s0 << 2) | (s1 >> 4), 0, 0]
  {
  }

  /** Padding followed by a character, which the standard does not have: the third byte
      has its two upper bits set. */
  lemma QuadOfOdd(c0: Octet, c1: Octet, c3: Octet)
    requires Lookup(c0) >= 0 && Lookup(c1) >= 0 && Lookup(c3) >= 0
    ensures QuadBytes(c0, c1, '=', c3) ==
      [(Bits(Lookup(c0)) << 2) | (Bits(Lookup(c1)) >> 4), 0, 0xC0 | Bits(Lookup(c3))]
  {
    PaddingBits();
  }

  lemma PaddingBits()
    ensures (Bits(-1) & 0x03) << 6 == 0xC0
  {
    assert Bits(-1) == 255;
  }

  lemma OneUndone(a: bv8)
    ensures var q := One(a); QuadBytes(q.c0, q.c1, q.c2, q.c3) == [a, 0, 0]
  {
    SextetsSmall(a, 0, 0);
    var s0, s1 := Sextet0(a), Sextet1(a, 0);
    CharLookup(s0);
    CharLookup(s1);
    QuadOfOne(Char(s0), Char(s1), s0, s1);
    JoinBits(a, 0, 0);
  }

  // ------------------------------------------------------------- whole texts

  function Apply(rule: QuadRule, q: Quad): seq<bv8> { rule(q.c0, q.c1, q.c2, q.c3) }

  /** The rule undoes the alphabet, group by group. */
  ghost predicate Undoes(rule: QuadRule, e: Alphabet) {
    && (forall a :: Apply(rule, e.one(a)) == [a, 0, 0])
    && (forall a, b :: Apply(rule, e.two(a, b)) == [a, b, 0])
    && (forall a, b, c :: Apply(rule, e.three(a, b, c)) == [a, b, c])
  }

  lemma StandardUndone()
    ensures Undoes(QuadBytes, Standard())
  {
    forall a ensures Apply(QuadBytes, Standard().one(a)) == [a, 0, 0] { OneUndone(a); }
    forall a, b ensures Apply(QuadBytes, Standard().two(a, b)) == [a, b, 0] { TwoUndone(a, b); }
    forall a, b, c ensures Apply(QuadBytes, Standard().three(a, b, c)) == [a, b, c] { ThreeUndone(a, b, c); }
  }

  lemma FewZeros()
    ensures Zeros(0) == [] && Zeros(1) == [0] && Zeros(2) == [0, 0]
  {
    assert Zeros(1) == [0] + Zeros(0);
    assert Zeros(2) == [0] + Zeros(1);
  }

  lemma DecodeFirstQuad(rule: QuadRule, q: Quad, rest: Text)
    ensures var text := TextOfQuad(q) + rest;
      JoinQuads(rule, text) == Apply(rule, q) + JoinQuads(rule, rest) &&
      (NoneSkipped(rule, text) <==> Apply(rule, q) != [] && NoneSkipped(rule, rest))
  {
    assert (TextOfQuad(q) + rest)[4..] == rest;
  }

  lemma OnlyQuad(rule: QuadRule, q: Quad)
    ensures JoinQuads(rule, TextOfQuad(q)) == Apply(rule, q)
    ensures NoneSkipped(rule, TextOfQuad(q)) <==> Apply(rule, q) != []
  {
    DecodeFirstQuad(rule, q, []);
    assert TextOfQuad(q) + [] == TextOfQuad(q) && Apply(rule, q) + [] == Apply(rule, q);
  }

  lemma UndoneAt(rule: QuadRule, e: Alphabet, a: bv8, b: bv8, c: bv8)
    requires Undoes(rule, e)
    ensures Apply(rule, e.one(a)) == [a, 0, 0] && Apply(rule, e.two(a, b)) == [a, b, 0]
    ensures Apply(rule, e.three(a, b, c)) == [a, b, c]
  {
  }

  lemma PaddingOf(n: nat)
    ensures n == 0 ==> Padding(n) == 0
    ensures n == 1 ==> Padding(n) == 2
    ensures n == 2 ==> Padding(n) == 1
    ensures n >= 3 ==> Padding(n) == Padding(n - 3)
  {
  }

  lemma LastOne(rule: QuadRule, e: Alphabet, bytes: seq<bv8>)
    requires Undoes(rule, e) && |bytes| == 1
    ensures |EncodeWith(e, bytes)| == 4 && NoneSkipped(rule, EncodeWith(e, bytes))
    ensures JoinQuads(rule, EncodeWith(e, bytes)) == bytes + [0, 0]
  {
    OnlyQuad(rule, e.one(bytes[0]));
    UndoneAt(rule, e, bytes[0], 0, 0);
    assert bytes + [0, 0] == [bytes[0], 0, 0];
  }

  lemma LastTwo(rule: QuadRule, e: Alphabet, bytes: seq<bv8>)
    requires Undoes(rule, e) && |bytes| == 2
    ensures |EncodeWith(e, bytes)| == 4 && NoneSkipped(rule, EncodeWith(e, bytes))
    ensures JoinQuads(rule, EncodeWith(e, bytes)) == bytes + [0]
  {
    OnlyQuad(rule, e.two(bytes[0], bytes[1]));
    UndoneAt(rule, e, bytes[0], bytes[1], 0);
    assert bytes + [0] == [bytes[0], bytes[1], 0];
  }

  lemma FirstThree(rule: QuadRule, e: Alphabet, bytes: seq<bv8>)
    requires Undoes(rule, e) && |bytes| >= 3
    ensures |EncodeWith(e, bytes)| == 4 + |EncodeWith(e, bytes[3..])|
    ensures NoneSkipped(rule, EncodeWith(e, bytes)) == NoneSkipped(rule, EncodeWith(e, bytes[3..]))
    ensures JoinQuads(rule, EncodeWith(e, bytes)) == bytes[..3] + JoinQuads(rule, EncodeWith(e, bytes[3..]))
  {
    DecodeFirstQuad(rule, e.three(bytes[0], bytes[1], bytes[2]), EncodeWith(e, bytes[3..]));
    UndoneAt(rule, e, bytes[0], bytes[1], bytes[2]);
    assert bytes[..3] == [bytes[0], bytes[1], bytes[2]];
  }

  lemma {:induction false} DecodeOfEncodeWith(rule: QuadRule, e: Alphabet, bytes: seq<bv8>)
    requires Undoes(rule, e)
    ensures |EncodeWith(e, bytes)| % 4 == 0 && NoneSkipped(rule, EncodeWith(e, bytes))
    ensures JoinQuads(rule, EncodeWith(e, bytes)) == bytes + Zeros(Padding(|bytes|))
  {
    FewZeros();
    PaddingOf(|bytes|);
    if bytes == [] {
    } else if |bytes| == 1 {
      LastOne(rule, e, bytes);
    } else if |bytes| == 2 {
      LastTwo(rule, e, bytes);
    } else {
      FirstThree(rule, e, bytes);
      DecodeOfEncodeWith(rule, e, bytes[3..]);
      assert bytes == bytes[..3] + bytes[3..];
    }
  }

  /** Decoding an encoding gives the bytes back, followed by one zero byte for each
      padding character; no quad is skipped. */
  lemma {:induction false} DecodeOfEncode(bytes: seq<bv8>)
    ensures |Encode(bytes)| % 4 == 0 && AllAccepted(Encode(bytes))
    ensures DecodeText(Encode(bytes)) == bytes + Zeros(Padding(|bytes|))
  {
    StandardUndone();
    DecodeOfEncodeWith(QuadBytes, Standard(), bytes);
  }

  lemma PaddingZero(n: nat)
    ensures Padding(n) < 3 && (Padding(n) == 0 <==> n % 3 == 0)
  {
  }

  lemma ZerosShow(decoded: seq<bv8>, bytes: seq<bv8>, n: nat)
    requires n < 3 && decoded == bytes + Zeros(n)
    ensures decoded == bytes <==> n == 0
  {
    FewZeros();
    assert |decoded| == |bytes| + n;
  }

  /** The decoder is a true inverse exactly when the encoding needs no padding. */
  lemma ExactInverseIff(bytes: seq<bv8>)
    ensures DecodeText(Encode(bytes)) == bytes <==> |bytes| % 3 == 0
  {
    DecodeOfEncode(bytes);
    PaddingZero(|bytes|);
    ZerosShow(DecodeText(Encode(bytes)), bytes, Padding(|bytes|));
  }

  /** A text made of whole quads of alphabet characters, without padding. */
  predicate Unpadded(text: Text) {
    |text| % 4 == 0 && AllOk(InAlphabet, text)
  }

  /** On the characters of a class, the alphabet undoes the rule. */
  ghost predicate Restores(rule: QuadRule, e: Alphabet, ok: Octet -> bool) {
    forall c0, c1, c2, c3 {:trigger rule(c0, c1, c2, c3)} :: ok(c0) && ok(c1) && ok(c2) && ok(c3) ==>
      var b := rule(c0, c1, c2, c3); |b| == 3 && e.three(b[0], b[1], b[2]) == Quad(c0, c1, c2, c3)
  }

  lemma ThreeRestored(s0: bv8, s1: bv8, s2: bv8, s3: bv8)
    requires s0 < 64 && s1 < 64 && s2 < 64 && s3 < 64
    ensures Three((s0 << 2) | (s1 >> 4), ((s1 & 0x0F) << 4) | (s2 >> 2), ((s2 & 0x03) << 6) | s3)
      == Quad(Char(s0), Char(s1), Char(s2), Char(s3))
  {
    SplitBits(s0, s1, s2, s3);
  }

  lemma QuadRestored(c0: Octet, c1: Octet, c2: Octet, c3: Octet)
    requires Lookup(c0) >= 0 && Lookup(c1) >= 0 && Lookup(c2) >= 0 && Lookup(c3) >= 0
    ensures var b := QuadBytes(c0, c1, c2, c3); |b| == 3 && Three(b[0], b[1], b[2]) == Quad(c0, c1, c2, c3)
  {
    LookupChar(c0);
    LookupChar(c1);
    LookupChar(c2);
    LookupChar(c3);
    var s0, s1, s2, s3 := Bits(Lookup(c0)), Bits(Lookup(c1)), Bits(Lookup(c2)), Bits(Lookup(c3));
    QuadOfValues(c0, c1, c2, c3, s0, s1, s2, s3);
    ThreeRestored(s0, s1, s2, s3);
  }

  lemma StandardRestores()
    ensures Restores(QuadBytes, Standard(), InAlphabet)
  {
    forall c0, c1, c2, c3 | InAlphabet(c0) && InAlphabet(c1) && InAlphabet(c2) && InAlphabet(c3)
      ensures var b := QuadBytes(c0, c1, c2, c3); |b| == 3 && Standard().three(b[0], b[1], b[2]) == Quad(c0, c1, c2, c3)
    {
      QuadRestored(c0, c1, c2, c3);
    }
  }

  lemma EncodeFirst(e: Alphabet, b: seq<bv8>, rest: seq<bv8>)
    requires |b| == 3
    ensures EncodeWith(e, b + rest) == TextOfQuad(e.three(b[0], b[1], b[2])) + EncodeWith(e, rest)
  {
    assert (b + rest)[3..] == rest;
  }

  predicate AllOk(ok: Octet -> bool, text: Text) { forall i :: 0 <= i < |text| ==> ok(text[i]) }

  lemma OkSplit(ok: Octet -> bool, text: Text)
    requires |text| >= 4 && AllOk(ok, text)
    ensures ok(text[0]) && ok(text[1]) && ok(text[2]) && ok(text[3]) && AllOk(ok, text[4..])
  {
  }

  lemma QuadInText(rule: QuadRule, e: Alphabet, ok: Octet -> bool, text: Text)
    requires Restores(rule, e, ok) && |text| >= 4 && ok(text[0]) && ok(text[1]) && ok(text[2]) && ok(text[3])
    ensures var b := rule(text[0], text[1], text[2], text[3]);
      |b| == 3 && TextOfQuad(e.three(b[0], b[1], b[2])) == text[..4]
  {
  }

  lemma FirstQuadRestored(rule: QuadRule, e: Alphabet, ok: Octet -> bool, text: Text)
    requires Restores(rule, e, ok) && |text| >= 4 && AllOk(ok, text)
    ensures AllOk(ok, text[4..])
    ensures NoneSkipped(rule, text) == NoneSkipped(rule, text[4..])
    ensures EncodeWith(e, JoinQuads(rule, text)) == text[..4] + EncodeWith(e, JoinQuads(rule, text[4..]))
  {
    OkSplit(ok, text);
    QuadInText(rule, e, ok, text);
    EncodeFirst(e, rule(text[0], text[1], text[2], text[3]), JoinQuads(rule, text[4..]));
  }

  lemma {:induction false} EncodeOfDecodeWith(rule: QuadRule, e: Alphabet, ok: Octet -> bool, text: Text)
    requires Restores(rule, e, ok)
    requires |text| % 4 == 0 && AllOk(ok, text)
    ensures EncodeWith(e, JoinQuads(rule, text)) == text && NoneSkipped(rule, text)
  {
    if text != [] {
      FirstQuadRestored(rule, e, ok, text);
      EncodeOfDecodeWith(rule, e, ok, text[4..]);
      assert text == text[..4] + text[4..];
    }
  }

  /** Encoding what an unpadded text decodes to gives that text back. */
  lemma EncodeOfDecode(text: Text)
    requires Unpadded(text)
    ensures Encode(DecodeText(text)) == text && AllAccepted(text)
  {
    StandardRestores();
    EncodeOfDecodeWith(QuadBytes, Standard(), InAlphabet, text);
  }

  /** Groups of three bytes are written in characters of a class. */
  ghost predicate WritesIn(e: Alphabet, ok: Octet -> bool) {
    forall a, b, c :: AllOk(ok, TextOfQuad(e.three(a, b, c)))
  }

  lemma ThreeInAlphabet(a: bv8, b: bv8, c: bv8)
    ensures AllOk(InAlphabet, TextOfQuad(Three(a, b, c)))
  {
    SextetsSmall(a, b, c);
    CharLookup(Sextet0(a));
    CharLookup(Sextet1(a, b));
    CharLookup(Sextet2(b, c));
    CharLookup(Sextet3(c));
    var q := Three(a, b, c);
    assert InAlphabet(q.c0) && InAlphabet(q.c1) && InAlphabet(q.c2) && InAlphabet(q.c3);
  }

  lemma StandardWritesIn()
    ensures WritesIn(Standard(), InAlphabet)
  {
    forall a, b, c ensures AllOk(InAlphabet, TextOfQuad(Standard().three(a, b, c))) {
      ThreeInAlphabet(a, b, c);
      assert Standard().three(a, b, c) == Three(a, b, c);
    }
  }

  lemma FirstGroup(e: Alphabet, ok: Octet -> bool, a: bv8, b: bv8, c: bv8)
    requires WritesIn(e, ok)
    ensures AllOk(ok, TextOfQuad(e.three(a, b, c)))
  {
  }

  lemma {:induction false} WholeGroups(e: Alphabet, ok: Octet -> bool, bytes: seq<bv8>)
    requires WritesIn(e, ok) && |bytes| % 3 == 0
    ensures |EncodeWith(e, bytes)| % 4 == 0 && AllOk(ok, EncodeWith(e, bytes))
  {
    if bytes != [] {
      WholeGroups(e, ok, bytes[3..]);
      FirstGroup(e, ok, bytes[0], bytes[1], bytes[2]);
    }
  }

  lemma {:induction false} JoinedInThrees(rule: QuadRule, data: Text)
    requires ThreeOrNone(rule)
    ensures |JoinQuads(rule, data)| % 3 == 0
  {
    if |data| >= 4 {
      JoinedInThrees(rule, data[4..]);
      var first := rule(data[0], data[1], data[2], data[3]);
      assert |first| == 3 || first == [];
    }
  }

  /** Exactly the unpadded texts come back: whatever else a text holds - padding, other
      characters, an odd length - is not restored. */
  lemma EncodeOfDecodeIff(text: Text)
    ensures Encode(DecodeText(text)) == text <==> Unpadded(text)
  {
    JoinedInThrees(QuadBytes, text);
    StandardWritesIn();
    WholeGroups(Standard(), InAlphabet, DecodeText(text));
    if Unpadded(text) { EncodeOfDecode(text); }
  }

  /** So no two unpadded texts decode to the same bytes. */
  lemma DecodeInjective(s: Text, t: Text)
    requires Unpadded(s) && Unpadded(t) && DecodeText(s) == DecodeText(t)
    ensures s == t
  {
    EncodeOfDecode(s);
    EncodeOfDecode(t);
  }

  /** The file written for an encoding: the bytes, then the zeros. */
  method WriteEncoded(bytes: seq<bv8>) returns (written: Option<seq<bv8>>)
    requires 3 * |Encode(bytes)| <= INT_MAX
    ensures written == Some(bytes + Zeros(Padding(|bytes|)))
  {
    DecodeOfEncode(bytes);
    written := DecodeAndWrite(Encode(bytes));
  }
}
