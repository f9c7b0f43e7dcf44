/** The Base64 decoder of libs/decodeutil: the standard alphabet of section 4 of
    RFC 4648, one quad of characters at a time into a fixed output buffer.
 */
module Base64 {
  import opened Common

  const INT_MAX: int := 0x7FFF_FFFF

  // -------------------------------------------------------------- the tables

  /** base64table, sixteen entries to a row. */
  function TableRow(r: int): (s: Text)
    ensures |s| == 16
  {
    match r
    case 0 => "ABCDEFGHIJKLMNOP"
    case 1 => "QRSTUVWXYZabcdef"
    case 2 => "ghijklmnopqrstuv"
    case _ => "wxyz0123456789+/"
  }

  /** base64decode, sixteen entries to a row: -1 for padding, -2 for anything else outside the alphabet. */
  function DecodeRow(r: int): (s: seq<int>)
    ensures |s| == 16
  {
    match r
    case 2 => [-2, -2, -2, -2, -2, -2, -2, -2, -2, -2, -2, 62, -2, -2, -2, 63]
    case 3 => [52, 53, 54, 55, 56, 57, 58, 59, 60, 61, -2, -2, -2, -1, -2, -2]
    case 4 => [-2,  0,  1,  2,  3,  4,  5,  6,  7,  8,  9, 10, 11, 12, 13, 14]
    case 5 => [15, 16, 17, 18, 19, 20, 21, 22, 23, 24, 25, -2, -2, -2, -2, -2]
    case 6 => [-2, 26, 27, 28, 29, 30, 31, 32, 33, 34, 35, 36, 37, 38, 39, 40]
    case 7 => [41, 42, 43, 44, 45, 46, 47, 48, 49, 50, 51, -2, -2, -2, -2, -2]
    case _ => [-2, -2, -2, -2, -2, -2, -2, -2, -2, -2, -2, -2, -2, -2, -2, -2]
  }

  /** The two tables by ranges of characters. */
  function Symbol(i: nat): Octet
    requires i < 64
  {
    if i < 26 then (i + 65) as char
    else if i < 52 then (i + 71) as char
    else if i < 62 then (i - 4) as char
    else if i == 62 then '+' else '/'
  }

  function Lookup(c: Octet): int {
    if 'A' <= c <= 'Z' then c as int - 65
    else if 'a' <= c <= 'z' then c as int - 71
    else if '0' <= c <= '9' then c as int + 4
    else if c == '+' then 62
    else if c == '/' then 63
    else if c == '=' then -1
    else -2
  }

  lemma RowIsLookup(r: int, k: int)
    requires 0 <= r < 16 && 0 <= k < 16
    ensures DecodeRow(r)[k] == Lookup((16 * r + k) as char)
  {
    if r < 5 { LowRowIsLookup(r, k); } else { HighRowIsLookup(r, k); }
  }

  lemma LowRowIsLookup(r: int, k: int)
    requires 0 <= r < 5 && 0 <= k < 16
    ensures DecodeRow(r)[k] == Lookup((16 * r + k) as char)
  {
  }

  lemma HighRowIsLookup(r: int, k: int)
    requires 5 <= r < 16 && 0 <= k < 16
    ensures DecodeRow(r)[k] == Lookup((16 * r + k) as char)
  {
  }

  lemma RowIsSymbol(r: int, k: int)
    requires 0 <= r < 4 && 0 <= k < 16
    ensures TableRow(r)[k] == Symbol(16 * r + k)
  {
  }

  /** Both forms of base64decode agree on every character, and both forms of base64table on every value. */
  lemma TablesByRange(c: Octet, i: nat)
    requires i < 64
    ensures Lookup(c) == DecodeRow(c as int / 16)[c as int % 16]
    ensures Symbol(i) == TableRow(i / 16)[i % 16]
  {
    RowIsLookup(c as int / 16, c as int % 16);
    RowIsSymbol(i / 16, i % 16);
  }

  /** The two tables undo each other. */
  lemma TablesInverse(c: Octet, i: nat)
    requires i < 64
    ensures Lookup(Symbol(i)) == i
    ensures Lookup(c) >= 0 ==> Lookup(c) < 64 && Symbol(Lookup(c)) == c
    ensures Lookup(c) == -1 <==> c == '='
  {
  }

  // ---------------------------------------------------------------- one quad

  /** A table value as the bits of a signed char. */
  function Bits(v: int): bv8 { (v % 256) as bv8 }

  predicate Accepted(v0: int, v1: int, v2: int, v3: int) {
    !(v0 < 0 || v1 < 0 || v2 < -1 || v3 < -1)
  }

  function First(v0: int, v1: int): bv8 { (Bits(v0) << 2) | (Bits(v1) >> 4) }

  function Second(v1: int, v2: int): bv8 {
    if v2 >= 0 then ((Bits(v1) & 0x0F) << 4) | (Bits(v2) >> 2) else 0
  }

  function Third(v2: int, v3: int): bv8 {
    if v3 >= 0 then ((Bits(v2) & 0x03) << 6) | Bits(v3) else 0
  }

  /** What a quad contributes to the output: three bytes, or nothing when it is skipped. */
  function QuadBytes(c0: Octet, c1: Octet, c2: Octet, c3: Octet): seq<bv8> {
    var v0, v1, v2, v3 := Lookup(c0), Lookup(c1), Lookup(c2), Lookup(c3);
    if Accepted(v0, v1, v2, v3) then [First(v0, v1), Second(v1, v2), Third(v2, v3)] else []
  }

  /** Any rule that turns a quad into three bytes or none. */
  type QuadRule = (Octet, Octet, Octet, Octet) -> seq<bv8>

  /** The outputs of a text's quads, one after the other. */
  function JoinQuads(rule: QuadRule, data: Text): seq<bv8> {
    if |data| < 4 then [] else rule(data[0], data[1], data[2], data[3]) + JoinQuads(rule, data[4..])
  }

  predicate NoneSkipped(rule: QuadRule, data: Text) {
    |data| < 4 || (rule(data[0], data[1], data[2], data[3]) != [] && NoneSkipped(rule, data[4..]))
  }

  /** The bytes that the loop writes for a text. */
  function DecodeText(data: Text): seq<bv8> { JoinQuads(QuadBytes, data) }

  predicate AllAccepted(data: Text) { NoneSkipped(QuadBytes, data) }

  ghost predicate ThreeOrNone(rule: QuadRule) {
    forall c0, c1, c2, c3 :: |rule(c0, c1, c2, c3)| == 3 || rule(c0, c1, c2, c3) == []
  }

  ghost predicate IsDecoder(rule: QuadRule) {
    forall c0, c1, c2, c3 {:trigger QuadBytes(c0, c1, c2, c3)} :: rule(c0, c1, c2, c3) == QuadBytes(c0, c1, c2, c3)
  }

  // --------------------------------------------------- which quads are skipped

  /** The standard's alphabet: table 1 of section 4. */
  predicate InAlphabet(c: Octet) {
    'A' <= c <= 'Z' || 'a' <= c <= 'z' || '0' <= c <= '9' || c == '+' || c == '/'
  }

  predicate GoodQuad(c0: Octet, c1: Octet, c2: Octet, c3: Octet) {
    InAlphabet(c0) && InAlphabet(c1) && (InAlphabet(c2) || c2 == '=') && (InAlphabet(c3) || c3 == '=')
  }

  lemma LookupSign(c: Octet)
    ensures Lookup(c) >= 0 <==> InAlphabet(c)
    ensures Lookup(c) >= -1 <==> InAlphabet(c) || c == '='
  {
  }

  /** Exactly the quads that write: two characters of the alphabet, then two more or padding. */
  lemma WritesIff(c0: Octet, c1: Octet, c2: Octet, c3: Octet)
    ensures |QuadBytes(c0, c1, c2, c3)| == if GoodQuad(c0, c1, c2, c3) then 3 else 0
  {
    LookupSign(c0);
    LookupSign(c1);
    LookupSign(c2);
    LookupSign(c3);
  }

  type QuadTest = (Octet, Octet, Octet, Octet) -> bool

  /** The text with the quads that fail a test left out. */
  function Keep(good: QuadTest, data: Text): Text {
    if |data| < 4 then []
    else (if good(data[0], data[1], data[2], data[3]) then data[..4] else []) + Keep(good, data[4..])
  }

  /** The text with its bad quads left out. */
  function Kept(data: Text): Text { Keep(GoodQuad, data) }

  ghost predicate Tells(good: QuadTest, rule: QuadRule) {
    forall c0, c1, c2, c3 {:trigger rule(c0, c1, c2, c3)} :: |rule(c0, c1, c2, c3)| == if good(c0, c1, c2, c3) then 3 else 0
  }

  lemma KeepFirst(good: QuadTest, rule: QuadRule, first: Text, rest: Text)
    requires |first| == 4
    ensures JoinQuads(rule, first + rest) == rule(first[0], first[1], first[2], first[3]) + JoinQuads(rule, rest)
    ensures NoneSkipped(rule, first + rest) <==> rule(first[0], first[1], first[2], first[3]) != [] && NoneSkipped(rule, rest)
  {
    assert (first + rest)[4..] == rest;
  }

  lemma {:induction false} KeepDecodes(good: QuadTest, rule: QuadRule, data: Text)
    requires Tells(good, rule)
    ensures JoinQuads(rule, Keep(good, data)) == JoinQuads(rule, data)
    ensures NoneSkipped(rule, Keep(good, data))
  {
    if |data| >= 4 {
      var rest := Keep(good, data[4..]);
      KeepDecodes(good, rule, data[4..]);
      KeepFirst(good, rule, data[..4], rest);
      assert |rule(data[0], data[1], data[2], data[3])| == if good(data[0], data[1], data[2], data[3]) then 3 else 0;
      assert Keep(good, data) == if good(data[0], data[1], data[2], data[3]) then data[..4] + rest else rest;
    }
  }

  lemma {:induction false} KeepSize(good: QuadTest, rule: QuadRule, data: Text)
    requires Tells(good, rule)
    ensures |Keep(good, data)| % 4 == 0 && |JoinQuads(rule, data)| == 3 * (|Keep(good, data)| / 4)
  {
    if |data| >= 4 {
      KeepSize(good, rule, data[4..]);
      assert |rule(data[0], data[1], data[2], data[3])| == if good(data[0], data[1], data[2], data[3]) then 3 else 0;
    }
  }

  lemma {:induction false} KeepAllIff(good: QuadTest, rule: QuadRule, data: Text)
    requires Tells(good, rule) && |data| % 4 == 0
    ensures Keep(good, data) == data <==> NoneSkipped(rule, data)
  {
    if data != [] {
      var first, tail, rest := data[..4], data[4..], Keep(good, data[4..]);
      KeepAllIff(good, rule, tail);
      KeepIsShorter(good, tail);
      assert |rule(data[0], data[1], data[2], data[3])| == if good(data[0], data[1], data[2], data[3]) then 3 else 0;
      SameTail(first, rest, tail);
      assert data == first + tail;
    }
  }

  lemma SameTail(first: Text, a: Text, b: Text)
    ensures first + a == first + b <==> a == b
  {
    assert (first + a)[|first|..] == a && (first + b)[|first|..] == b;
  }

  lemma {:induction false} KeepIsShorter(good: QuadTest, data: Text)
    ensures |Keep(good, data)| <= |data|
  {
    if |data| >= 4 { KeepIsShorter(good, data[4..]); }
  }

  /** A text decodes as the text without its bad quads, three bytes for each good one. */
  lemma KeptDecodes(data: Text)
    ensures DecodeText(data) == DecodeText(Kept(data)) && AllAccepted(Kept(data))
    ensures |DecodeText(data)| == 3 * (|Kept(data)| / 4)
    ensures |data| % 4 == 0 ==> (Kept(data) == data <==> AllAccepted(data))
  {
    QuadsTell();
    KeepDecodes(GoodQuad, QuadBytes, data);
    KeepSize(GoodQuad, QuadBytes, data);
    if |data| % 4 == 0 { KeepAllIff(GoodQuad, QuadBytes, data); }
  }

  lemma QuadsTell()
    ensures Tells(GoodQuad, QuadBytes)
  {
    forall c0, c1, c2, c3 ensures |QuadBytes(c0, c1, c2, c3)| == if GoodQuad(c0, c1, c2, c3) then 3 else 0 {
      WritesIff(c0, c1, c2, c3);
    }
  }

  /** `decode_and_write`: the bytes written to the file, or None when no file is written. */
  method DecodeAndWrite(data: Text) returns (written: Option<seq<bv8>>)
    requires 3 * |data| <= INT_MAX
    ensures written.None? <==> |data| % 4 != 0
    ensures written.Some? ==> |written.value| == 3 * (|data| / 4) && DecodeText(data) <= written.value
    ensures written.Some? && AllAccepted(data) ==> written.value == DecodeText(data)
    // bad quads count for nothing, good ones for three bytes
    ensures written.Some? ==>
      DecodeText(Kept(data)) <= written.value && |DecodeText(Kept(data))| == 3 * (|Kept(data)| / 4)
    ensures written.Some? && Kept(data) == data ==> written.value == DecodeText(data)
  {
    KeptDecodes(data);
    written := DecodeLoop(QuadBytes, data);
  }

  method DecodeLoop(ghost rule: QuadRule, data: Text) returns (written: Option<seq<bv8>>)
    requires 3 * |data| <= INT_MAX
    requires IsDecoder(rule) && ThreeOrNone(rule)
    ensures written.None? <==> |data| % 4 != 0
    ensures written.Some? ==> |written.value| == 3 * (|data| / 4) && JoinQuads(rule, data) <= written.value
    ensures written.Some? && NoneSkipped(rule, data) ==> written.value == JoinQuads(rule, data)
  {
    var len := |data|;
    var outputSize := len * 3 / 4;
    SizeOfOutput(len);
    var result := new bv8[outputSize + 5];  // contents not initialised
    var input, out := 0, 0;
    ghost var quads, total := 0, len / 4;
    assert result[..0] == [] && data[0..] == data;
    while len > 0
      invariant 0 <= len && input + len == |data| && input == 4 * quads && quads <= total
      invariant 0 <= out <= 3 * quads
      invariant JoinQuads(rule, data) == result[..out] + JoinQuads(rule, data[input..])
    {
      if len < 4 {
        assert quads == total;
        return None;
      }
      JoinStep(rule, result[..out], data, input);
      var n := DecodeQuad(rule, result, out, data[input], data[input + 1], data[input + 2], data[input + 3]);
      input, out, quads := input + 4, out + n, quads + 1;
      len := len - 4;
    }
    assert quads == total;
    JoinedSize(rule, data);
    assert data[input..] == [] && JoinQuads(rule, data) == result[..out];
    return Some(result[..outputSize]);
  }

  lemma SizeOfOutput(len: nat)
    ensures len * 3 / 4 >= 3 * (len / 4)
    ensures len % 4 == 0 ==> len * 3 / 4 == 3 * (len / 4)
  {
  }

  lemma JoinStep(rule: QuadRule, done: seq<bv8>, data: Text, i: nat)
    requires i + 4 <= |data|
    ensures done + JoinQuads(rule, data[i..]) ==
      (done + rule(data[i], data[i + 1], data[i + 2], data[i + 3])) + JoinQuads(rule, data[i + 4..])
  {
    assert data[i..][4..] == data[i + 4..];
  }

  /** One round of the loop: looks four characters up and, unless one of them is
      bad, writes three bytes. */
  method DecodeQuad(ghost rule: QuadRule, result: array<bv8>, out: nat, c0: Octet, c1: Octet, c2: Octet, c3: Octet)
    returns (n: nat)
    requires out + 3 <= result.Length && IsDecoder(rule)
    modifies result
    ensures n <= 3 && result[..out + n] == old(result[..out]) + rule(c0, c1, c2, c3)
  {
    assert rule(c0, c1, c2, c3) == QuadBytes(c0, c1, c2, c3);
    var v0, v1, v2, v3 := Lookup(c0), Lookup(c1), Lookup(c2), Lookup(c3);
    if !Accepted(v0, v1, v2, v3) {
      return 0;
    }
    WriteQuad(result, out, v0, v1, v2, v3);
    return 3;
  }

  /** The writes of an accepted quad; padding writes zero bytes. */
  method WriteQuad(result: array<bv8>, out: nat, v0: int, v1: int, v2: int, v3: int)
    requires out + 3 <= result.Length
    modifies result
    ensures result[..out + 3] == old(result[..out]) + [First(v0, v1), Second(v1, v2), Third(v2, v3)]
  {
    ghost var done := result[..out];
    result[out] := (Bits(v0) << 2) | (Bits(v1) >> 4);
    assert result[out] == First(v0, v1);
    if v2 >= 0 {
      result[out + 1] := ((Bits(v1) & 0x0F) << 4) | (Bits(v2) >> 2);
    } else {
      result[out + 1] := 0;
    }
    assert result[out + 1] == Second(v1, v2);
    if v3 >= 0 {
      result[out + 2] := ((Bits(v2) & 0x03) << 6) | Bits(v3);
    } else {
      result[out + 2] := 0;
    }
    assert result[out + 2] == Third(v2, v3);
    assert result[..out] == done;
    PrefixOfThree(result[..], out);
    assert result[..out + 3] == result[..][..out + 3] && result[..out] == result[..][..out];
  }

  lemma PrefixOfThree(s: seq<bv8>, n: nat)
    requires n + 3 <= |s|
    ensures s[..n + 3] == s[..n] + [s[n], s[n + 1], s[n + 2]]
  {
  }

  /** Three bytes a quad, exactly when no quad is skipped. */
  lemma {:induction false} JoinedSize(rule: QuadRule, data: Text)
    requires ThreeOrNone(rule)
    ensures |JoinQuads(rule, data)| <= 3 * (|data| / 4)
    ensures NoneSkipped(rule, data) <==> |JoinQuads(rule, data)| == 3 * (|data| / 4)
  {
    if |data| >= 4 {
      JoinedSize(rule, data[4..]);
      var first := rule(data[0], data[1], data[2], data[3]);
      assert |first| == 3 || first == [];
    }
  }
}
