/** Access tokens and node identifiers.  Random bytes are what the random source delivers. */
module Tokens {
  import opened Options
  import opened Text
  import opened Base64
  import opened Numbers

  const TOKEN_SIZE := 32
  const NODE_ID_SIZE := 6
  const NODE_ID_LIMIT := 0x1_0000_0000_0000    // 2^48

  /** `!strings.ContainsAny(key, "-_")`. */
  predicate Plain(key: string) { '-' !in key && '_' !in key }

  predicate PlainToken(block: seq<Byte>) { Plain(Encode(RAW_URL, block)) }

  /**
   `GenerateToken`.  `blocks` is what successive reads of the random source fill the buffer with; the
   read after the last one fails.
   */
  method GenerateToken(blocks: seq<seq<Byte>>) returns (key: Option<string>, taken: nat)
    ensures taken <= |blocks| && forall j :: 0 <= j < taken ==> !PlainToken(blocks[j])
    ensures key.None? <==> taken == |blocks|
    ensures key.Some? ==> PlainToken(blocks[taken]) && key.value == Encode(RAW_URL, blocks[taken])
  {
    taken := 0;
    while taken < |blocks|
      invariant taken <= |blocks| && forall j :: 0 <= j < taken ==> !PlainToken(blocks[j])
    {
      var nonce := blocks[taken];
      if PlainToken(nonce) {
        return Some(Encode(RAW_URL, nonce)), taken;
      }
      taken := taken + 1;
    }
    return None, taken;
  }

  function ParseToken(key: string): Option<seq<Byte>> {
    match Decode(RAW_URL, key)
    case None => None
    case Some(data) => if |data| == TOKEN_SIZE then Some(data) else None
  }

  lemma PlainIsNeutral(block: seq<Byte>)
    requires PlainToken(block)
    ensures Neutral(Encode(RAW_URL, block))
  {
    EncodedText(RAW_URL, block);
  }

  lemma NeutralDecodesAlike(key: string)
    requires Neutral(key) && '\n' !in key && '\r' !in key
    ensures Decode(RAW_STD, key) == Decode(RAW_URL, key)
  {
    NoBreaks(key);
    NeutralGroups(false, key);
  }

  /**
   Every token `GenerateToken` can return parses to exactly the bytes it encodes, is 43 characters
   long, and decodes identically under the standard and the URL-safe alphabet.
   */
  lemma TokenRoundTrip(block: seq<Byte>)
    requires |block| == TOKEN_SIZE && PlainToken(block)
    ensures var key := Encode(RAW_URL, block);
            ParseToken(key) == Some(block) && |key| == 43 && Decode(RAW_STD, key) == Some(block)
  {
    RoundTrip(RAW_URL, block);
    EncodedText(RAW_URL, block);
    PlainIsNeutral(block);
    NeutralDecodesAlike(Encode(RAW_URL, block));
  }

  /**
   `ParseToken` accepts no other size: what it returns is 32 bytes that the key decodes to, and the code
   of a block of any other size is refused.
   */
  lemma OnlyTokensParse(key: string, block: seq<Byte>)
    ensures ParseToken(key).Some? ==> |ParseToken(key).value| == 32 && Decode(RAW_URL, key) == ParseToken(key)
    ensures ParseToken(Encode(RAW_URL, block)) == if |block| == 32 then Some(block) else None
  {
    RoundTrip(RAW_URL, block);
  }

  /** Different blocks give different tokens. */
  lemma TokensDistinct(a: seq<Byte>, b: seq<Byte>)
    requires |a| == |b| == TOKEN_SIZE && Encode(RAW_URL, a) == Encode(RAW_URL, b)
    ensures a == b
  {
    RoundTrip(RAW_URL, a);
    RoundTrip(RAW_URL, b);
  }

  // ----- Node identifiers

  function HexChar(d: nat): char
    requires d < 16
  {
    if d < 10 then ('0' as int + d) as char else ('a' as int + d - 10) as char
  }

  /** `hex.EncodeToString`. */
  function Hex(data: seq<Byte>): (s: string)
    ensures |s| == 2 * |data|
  {
    if data == [] then []
    else Hex(data[..|data| - 1]) + [HexChar(data[|data| - 1] / 16), HexChar(data[|data| - 1] % 16)]
  }

  /** The bytes as a big-endian number. */
  function BigEndian(data: seq<Byte>): nat {
    if data == [] then 0 else BigEndian(data[..|data| - 1]) * 256 + data[|data| - 1]
  }

  function Power256(n: nat): nat { if n == 0 then 1 else 256 * Power256(n - 1) }

  /** `GenerateNodeId` from the bytes read, if the read succeeds. */
  function GenerateNodeId(blob: Option<seq<Byte>>): Option<string> {
    match blob
    case None => None
    case Some(data) => Some("0x" + Hex(data))
  }

  function ParseNodeId(text: string): Option<nat> {
    ParseUint(if HasPrefix(text, "0x") then text[2..] else text, 16, NODE_ID_LIMIT)
  }

  lemma {:induction false} HexValue(data: seq<Byte>)
    ensures Value(16, Hex(data)) == Some(BigEndian(data))
  {
    if data != [] {
      var front, last, s := data[..|data| - 1], data[|data| - 1], Hex(data);
      HexValue(front);
      assert s[..|s| - 1][..|s| - 2] == Hex(front);
      assert s[|s| - 1] == HexChar(last % 16) && s[..|s| - 1][|s| - 2] == HexChar(last / 16);
    }
  }

  lemma {:induction false} BigEndianBound(data: seq<Byte>)
    ensures BigEndian(data) < Power256(|data|)
  {
    if data != [] {
      BigEndianBound(data[..|data| - 1]);
    }
  }

  lemma {:induction false} BigEndianInjective(a: seq<Byte>, b: seq<Byte>)
    requires |a| == |b| && BigEndian(a) == BigEndian(b)
    ensures a == b
  {
    if a != [] {
      BigEndianInjective(a[..|a| - 1], b[..|b| - 1]);
      assert a == a[..|a| - 1] + [a[|a| - 1]] && b == b[..|b| - 1] + [b[|b| - 1]];
    }
  }

  lemma {:induction false} HexDigitsOnly(data: seq<Byte>)
    ensures forall c :: c in Hex(data) ==> '0' <= c <= '9' || 'a' <= c <= 'f'
  {
    if data != [] {
      HexDigitsOnly(data[..|data| - 1]);
    }
  }

  lemma NotPrefixed(s: string)
    requires 'x' !in s
    ensures !HasPrefix(s, "0x")
  {
    if |s| >= 2 {
      assert s[1] in s && s[..2][1] == s[1] && "0x"[1] == 'x';
    }
  }

  /** Bytes in hexadecimal, with or without "0x": their value, unless there are none or it has 49 bits. */
  lemma HexParses(data: seq<Byte>)
    ensures var value := if data != [] && BigEndian(data) < NODE_ID_LIMIT then Some(BigEndian(data)) else None;
            ParseNodeId("0x" + Hex(data)) == value && ParseNodeId(Hex(data)) == value
  {
    var text := "0x" + Hex(data);
    assert text[..2] == "0x" && text[2..] == Hex(data);
    HexValue(data);
    HexDigitsOnly(data);
    NotPrefixed(Hex(data));
  }

  /** Any text is refused that is not hexadecimal digits, or whose value has more than 48 bits. */
  lemma OnlyNodeIdsParse(text: string)
    requires ParseNodeId(text).Some?
    ensures var digits := if HasPrefix(text, "0x") then text[2..] else text;
            && digits != [] && ParseNodeId(text).value < 0x1_0000_0000_0000
            && forall c :: c in digits ==> '0' <= c <= '9' || 'a' <= c <= 'f' || 'A' <= c <= 'F'
  {
    ValueDigits(16, if HasPrefix(text, "0x") then text[2..] else text);
  }

  /**
   A generated node id is "0x" and twelve lower-case hexadecimal digits and parses to the big-endian
   value of its six bytes, which is below 2^48; and different byte blocks give different ids.
   */
  lemma NodeIdRoundTrip(blob: seq<Byte>, other: seq<Byte>)
    requires |blob| == |other| == NODE_ID_SIZE
    ensures var id := GenerateNodeId(Some(blob)).value;
            && |id| == 14 && id[..2] == "0x"
            && forall c :: c in id[2..] ==> '0' <= c <= '9' || 'a' <= c <= 'f'
    ensures ParseNodeId(GenerateNodeId(Some(blob)).value) == Some(BigEndian(blob))
    ensures BigEndian(blob) < NODE_ID_LIMIT
    ensures blob != other ==> ParseNodeId(GenerateNodeId(Some(other)).value) != Some(BigEndian(blob))
  {
    HexDigitsOnly(blob);
    assert ("0x" + Hex(blob))[2..] == Hex(blob);
    NodeIdParses(blob);
    NodeIdParses(other);
    if BigEndian(blob) == BigEndian(other) {
      BigEndianInjective(blob, other);
    }
  }

  lemma NodeIdParses(blob: seq<Byte>)
    requires |blob| == NODE_ID_SIZE
    ensures ParseNodeId(GenerateNodeId(Some(blob)).value) == Some(BigEndian(blob)) && BigEndian(blob) < NODE_ID_LIMIT
  {
    HexParses(blob);
    BigEndianBound(blob);
    assert Power256(6) == 256 * (256 * Power256(4)) && Power256(4) == 256 * (256 * Power256(2)) && Power256(2) == 65536;
  }
}
