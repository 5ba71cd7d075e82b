/**
 The Base64 codecs of the Go library: standard (section 4 of RFC 4648, padded) and URL-safe without
 padding (section 5).  Decoding skips line breaks and ignores unused trailing bits, as Go does.
 */
module Base64 {
  import opened Options

  type Byte = b: nat | b < 256

  datatype Codec = Codec(urlSafe: bool, padded: bool)

  const STD := Codec(false, true)
  const RAW_STD := Codec(false, false)
  const RAW_URL := Codec(true, false)

  function CharOf(urlSafe: bool, v: nat): (c: char)
    requires v < 64
    ensures ValueOf(urlSafe, c) == Some(v)
  {
    if v < 26 then ('A' as int + v) as char
    else if v < 52 then ('a' as int + v - 26) as char
    else if v < 62 then ('0' as int + v - 52) as char
    else if v == 62 then (if urlSafe then '-' else '+')
    else (if urlSafe then '_' else '/')
  }

  function ValueOf(urlSafe: bool, c: char): (v: Option<nat>)
    ensures v.Some? ==> v.value < 64
  {
    if 'A' <= c <= 'Z' then Some(c as int - 'A' as int)
    else if 'a' <= c <= 'z' then Some(c as int - 'a' as int + 26)
    else if '0' <= c <= '9' then Some(c as int - '0' as int + 52)
    else if c == (if urlSafe then '-' else '+') then Some(62)
    else if c == (if urlSafe then '_' else '/') then Some(63)
    else None
  }

  type Digit = v: nat | v < 64

  /** Two, three or four digits for one, two or three bytes. */
  function Digits(data: seq<Byte>): (vs: seq<Digit>)
    requires 1 <= |data| <= 3
    ensures |vs| == |data| + 1
  {
    if |data| == 1 then [data[0] / 4, data[0] % 4 * 16]
    else if |data| == 2 then [data[0] / 4, data[0] % 4 * 16 + data[1] / 16, data[1] % 16 * 4]
    else [data[0] / 4, data[0] % 4 * 16 + data[1] / 16, data[1] % 16 * 4 + data[2] / 64, data[2] % 64]
  }

  /** The bytes of two, three or four digits; trailing bits that fill no byte are dropped. */
  function Bytes(vs: seq<Digit>): (data: seq<Byte>)
    requires 2 <= |vs| <= 4
  {
    var v: seq<int> := vs;
    if |v| == 2 then [v[0] * 4 + v[1] / 16]
    else if |v| == 3 then [v[0] * 4 + v[1] / 16, v[1] % 16 * 16 + v[2] / 4]
    else [v[0] * 4 + v[1] / 16, v[1] % 16 * 16 + v[2] / 4, v[2] % 4 * 64 + v[3]]
  }

  lemma BytesOfDigits(data: seq<Byte>)
    requires 1 <= |data| <= 3
    ensures Bytes(Digits(data)) == data
  {
    var got := Bytes(Digits(data));
    assert |got| == |data|;
    var a := data[0];
    assert got[0] == a;
    if |data| >= 2 {
      assert got[1] == data[1] by { SecondByte(a, data[1], if |data| == 3 then data[2] else 0); }
    }
    if |data| == 3 {
      assert got[2] == data[2] by { ThirdByte(data[1], data[2]); }
    }
  }

  lemma SecondByte(a: Byte, b: Byte, c: Byte)
    ensures (a % 4 * 16 + b / 16) % 16 * 16 + (b % 16 * 4 + c / 64) / 4 == b
    ensures (a % 4 * 16 + b / 16) % 16 * 16 + (b % 16 * 4) / 4 == b
    ensures a / 4 * 4 + (a % 4 * 16 + b / 16) / 16 == a
  {
  }

  lemma ThirdByte(b: Byte, c: Byte)
    ensures (b % 16 * 4 + c / 64) % 4 * 64 + c % 64 == c
  {
  }

  function Chars(urlSafe: bool, vs: seq<Digit>): (s: string)
    ensures |s| == |vs| && forall i :: 0 <= i < |s| ==> ValueOf(urlSafe, s[i]) == Some(vs[i])
  {
    seq(|vs|, i requires 0 <= i < |vs| => CharOf(urlSafe, vs[i]))
  }

  /** The digits of a text, or `None` when a character is not in the alphabet. */
  function Values(urlSafe: bool, s: string): (vs: Option<seq<Digit>>)
    ensures vs.Some? ==> |vs.value| == |s| && forall i :: 0 <= i < |s| ==> ValueOf(urlSafe, s[i]) == Some(vs.value[i])
    ensures vs.None? <==> exists i :: 0 <= i < |s| && ValueOf(urlSafe, s[i]).None?
  {
    if s == [] then Some([])
    else match (ValueOf(urlSafe, s[0]), Values(urlSafe, s[1..]))
      case (Some(v), Some(vs)) => Some([v] + vs)
      case _ => None
  }

  lemma ValuesOfChars(urlSafe: bool, vs: seq<Digit>)
    ensures Values(urlSafe, Chars(urlSafe, vs)) == Some(vs)
  {
    var got := Values(urlSafe, Chars(urlSafe, vs));
    assert got.value == vs;
  }

  const PADDING: seq<string> := ["", "=", "=="]

  function Encode(k: Codec, data: seq<Byte>): string {
    if |data| == 0 then ""
    else if |data| < 3 then
      Chars(k.urlSafe, Digits(data)) + if k.padded then PADDING[3 - |data|] else ""
    else Chars(k.urlSafe, Digits(data[..3])) + Encode(k, data[3..])
  }

  function WithoutBreaks(s: string): string {
    if s == [] then []
    else if s[0] == '\n' || s[0] == '\r' then WithoutBreaks(s[1..])
    else [s[0]] + WithoutBreaks(s[1..])
  }

  function Group(urlSafe: bool, s: string): Option<seq<Byte>>
    requires 2 <= |s| <= 4
  {
    match Values(urlSafe, s)
    case None => None
    case Some(vs) => Some(Bytes(vs))
  }

  function DecodeGroups(k: Codec, s: string): Option<seq<Byte>> {
    if s == [] then Some([])
    else if |s| < 4 then
      if k.padded || |s| == 1 then None else Group(k.urlSafe, s)
    else match Group(k.urlSafe, s[..4])
      case Some(front) =>
        (match DecodeGroups(k, s[4..])
         case None => None
         case Some(back) => Some(front + back))
      case None =>
        if !k.padded || |s| > 4 || s[3] != '=' then None
        else if s[2] == '=' then Group(k.urlSafe, s[..2])
        else Group(k.urlSafe, s[..3])
  }

  function Decode(k: Codec, s: string): Option<seq<Byte>> { DecodeGroups(k, WithoutBreaks(s)) }

  /** What an encoded text looks like. */
  lemma {:induction false} EncodedText(k: Codec, data: seq<Byte>)
    ensures forall c :: c in Encode(k, data) ==> ValueOf(k.urlSafe, c).Some? || (k.padded && c == '=')
    ensures data != [] ==> Encode(k, data) != []
    ensures !k.padded ==> |Encode(k, data)| == (|data| * 8 + 5) / 6
  {
    if |data| >= 3 {
      EncodedText(k, data[3..]);
    }
  }

  lemma {:induction false} NoBreaks(s: string)
    requires '\n' !in s && '\r' !in s
    ensures WithoutBreaks(s) == s
  {
    if s != [] {
      assert s[0] in s;
      NoBreaks(s[1..]);
    }
  }

  lemma LastGroup(k: Codec, data: seq<Byte>)
    requires 1 <= |data| <= 2
    ensures DecodeGroups(k, Encode(k, data)) == Some(data)
  {
    var s, digits := Encode(k, data), Chars(k.urlSafe, Digits(data));
    ValuesOfChars(k.urlSafe, Digits(data));
    BytesOfDigits(data);
    if k.padded {
      assert |s| == 4 && s[..|data| + 1] == digits && s[..4] == s && s[3] == '=';
      assert ValueOf(k.urlSafe, s[3]).None?;
      assert |data| == 2 ==> s[2] == digits[2] && s[2] != '=';
    } else {
      assert s == digits;
    }
  }

  lemma {:induction false} DecodeGroupsOfEncode(k: Codec, data: seq<Byte>)
    ensures DecodeGroups(k, Encode(k, data)) == Some(data)
    decreases |data|
  {
    if 1 <= |data| <= 2 {
      LastGroup(k, data);
    } else if |data| >= 3 {
      var s, digits := Encode(k, data), Chars(k.urlSafe, Digits(data[..3]));
      ValuesOfChars(k.urlSafe, Digits(data[..3]));
      BytesOfDigits(data[..3]);
      DecodeGroupsOfEncode(k, data[3..]);
      assert s[..4] == digits && s[4..] == Encode(k, data[3..]);
      assert data == data[..3] + data[3..];
    }
  }

  /** Every codec decodes what it encoded. */
  lemma RoundTrip(k: Codec, data: seq<Byte>)
    ensures Decode(k, Encode(k, data)) == Some(data)
  {
    EncodedText(k, data);
    CodeHasNoBreaks(k, Encode(k, data));
    DecodeGroupsOfEncode(k, data);
  }

  lemma CodeHasNoBreaks(k: Codec, s: string)
    requires forall c :: c in s ==> ValueOf(k.urlSafe, c).Some? || (k.padded && c == '=')
    ensures WithoutBreaks(s) == s
  {
    assert ValueOf(k.urlSafe, '\n').None? && ValueOf(k.urlSafe, '\r').None?;
    NoBreaks(s);
  }

  // ----- The codes are those of RFC 4648

  /** The digits of a group are its bits, six at a time from the first (section 4). */
  lemma GroupBits(data: seq<Byte>)
    requires 1 <= |data| <= 3
    ensures var v: seq<int>, d: seq<int> := Digits(data), data;
            if |d| == 1 then v[0] * 64 + v[1] == d[0] * 16
            else if |d| == 2 then (v[0] * 64 + v[1]) * 64 + v[2] == (d[0] * 256 + d[1]) * 4
            else ((v[0] * 64 + v[1]) * 64 + v[2]) * 64 + v[3] == (d[0] * 256 + d[1]) * 256 + d[2]
  {
  }

  lemma Letters(urlSafe: bool, v: nat)
    requires v < 52
    ensures v < 26 ==> CharOf(urlSafe, v) == "ABCDEFGHIJKLMNOPQRSTUVWXYZ"[v]
    ensures 26 <= v ==> CharOf(urlSafe, v) == "abcdefghijklmnopqrstuvwxyz"[v - 26]
  {
  }

  /** The two alphabets (tables 1 and 2). */
  lemma Alphabets(urlSafe: bool, v: nat)
    requires v < 64
    ensures v < 26 ==> CharOf(urlSafe, v) == "ABCDEFGHIJKLMNOPQRSTUVWXYZ"[v]
    ensures 26 <= v < 52 ==> CharOf(urlSafe, v) == "abcdefghijklmnopqrstuvwxyz"[v - 26]
    ensures 52 <= v ==> CharOf(urlSafe, v) == (if urlSafe then "0123456789-_" else "0123456789+/")[v - 52]
  {
    if v < 52 {
      Letters(urlSafe, v);
    }
  }

  /** Test vectors of section 10. */
  lemma Vectors()
    ensures Encode(STD, []) == "" && Encode(STD, [102]) == "Zg==" && Encode(STD, [102, 111]) == "Zm8="
    ensures Encode(STD, [102, 111, 111]) == "Zm9v" && Encode(RAW_URL, [102]) == "Zg"
  {
    assert Digits([102]) == [25, 32] && Digits([102, 111]) == [25, 38, 60];
    assert [102, 111, 111][..3] == [102, 111, 111] && Digits([102, 111, 111]) == [25, 38, 61, 47];
    assert [102, 111, 111][3..] == [];
  }

  predicate InAlphabet(k: Codec, c: char) { ValueOf(k.urlSafe, c).Some? || (k.padded && c == '=') }

  /** The text is of the alphabet, with '=' at most in its last two places. */
  ghost predicate Accepted(k: Codec, s: string) {
    forall i :: 0 <= i < |s| ==> InAlphabet(k, s[i]) && (i < |s| - 2 ==> s[i] != '=')
  }

  lemma AcceptedAfter(k: Codec, s: string)
    requires |s| >= 4 && Group(k.urlSafe, s[..4]).Some? && Accepted(k, s[4..])
    ensures Accepted(k, s)
  {
    GroupAccepted(k.urlSafe, s[..4]);
    assert forall i :: 0 <= i < 4 ==> s[i] == s[..4][i];
    assert forall i :: 4 <= i < |s| ==> s[i] == s[4..][i - 4];
  }

  lemma DecodeFirst(k: Codec, s: string)
    requires |s| >= 4 && DecodeGroups(k, s).Some? && Group(k.urlSafe, s[..4]).Some?
    ensures DecodeGroups(k, s[4..]).Some?
  {
  }

  lemma LastGroupAccepted(k: Codec, s: string)
    requires |s| < 4 && DecodeGroups(k, s).Some?
    ensures Accepted(k, s) && |s| != 1 && (k.padded ==> s == [])
  {
    if s != [] {
      GroupAccepted(k.urlSafe, s);
    }
  }

  lemma PaddedGroupAccepted(k: Codec, s: string)
    requires |s| >= 4 && DecodeGroups(k, s).Some? && Group(k.urlSafe, s[..4]).None?
    ensures |s| == 4 && k.padded && Accepted(k, s)
  {
    FirstGroupAccepted(k, s);
  }

  lemma {:induction false} GroupsAccepted(k: Codec, s: string)
    requires DecodeGroups(k, s).Some?
    ensures Accepted(k, s)
    decreases |s|
  {
    if |s| < 4 {
      LastGroupAccepted(k, s);
    } else if Group(k.urlSafe, s[..4]).Some? {
      DecodeFirst(k, s);
      GroupsAccepted(k, s[4..]);
      AcceptedAfter(k, s);
    } else {
      PaddedGroupAccepted(k, s);
    }
  }

  predicate WholeLength(k: Codec, n: nat) { if k.padded then n % 4 == 0 else n % 4 != 1 }

  lemma FourMore(k: Codec, n: nat)
    requires WholeLength(k, n)
    ensures WholeLength(k, n + 4)
  {
  }

  lemma {:induction false} GroupsLength(k: Codec, s: string)
    requires DecodeGroups(k, s).Some?
    ensures WholeLength(k, |s|)
    decreases |s|
  {
    if |s| < 4 {
      LastGroupAccepted(k, s);
    } else if Group(k.urlSafe, s[..4]).Some? {
      DecodeFirst(k, s);
      GroupsLength(k, s[4..]);
      FourMore(k, |s[4..]|);
    } else {
      PaddedGroupAccepted(k, s);
    }
  }

  lemma GroupAccepted(urlSafe: bool, s: string)
    requires 2 <= |s| <= 4 && Group(urlSafe, s).Some?
    ensures forall i :: 0 <= i < |s| ==> ValueOf(urlSafe, s[i]).Some? && s[i] != '='
  {
  }

  lemma FirstGroupAccepted(k: Codec, s: string)
    requires |s| >= 4 && DecodeGroups(k, s).Some?
    ensures forall i :: 0 <= i < 4 ==> InAlphabet(k, s[i])
    ensures s[0] != '=' && s[1] != '=' && (Group(k.urlSafe, s[..4]).Some? ==> s[2] != '=' && s[3] != '=')
    ensures Group(k.urlSafe, s[..4]).None? ==> |s| == 4 && k.padded
  {
    if Group(k.urlSafe, s[..4]).Some? {
      GroupAccepted(k.urlSafe, s[..4]);
      assert forall i :: 0 <= i < 4 ==> s[i] == s[..4][i];
    } else if s[2] == '=' {
      GroupAccepted(k.urlSafe, s[..2]);
      assert s[0] == s[..2][0] && s[1] == s[..2][1];
    } else {
      GroupAccepted(k.urlSafe, s[..3]);
      assert s[0] == s[..3][0] && s[1] == s[..3][1] && s[2] == s[..3][2];
    }
  }

  lemma {:induction false} BreaksAreSkipped(s: string)
    ensures forall c :: c in WithoutBreaks(s) <==> c in s && c != '\r' && c != '\n'
  {
    if s != [] {
      BreaksAreSkipped(s[1..]);
      assert forall c :: c in s <==> c == s[0] || c in s[1..];
    }
  }

  /**
   What a decoder accepts: besides line breaks only characters of its alphabet, and '=' only where it
   pads, in the last two places of a whole number of groups.
   */
  lemma DecodeAccepts(k: Codec, s: string)
    requires Decode(k, s).Some?
    ensures forall c :: c in s ==> InAlphabet(k, c) || c in "\r\n"
    ensures var t := WithoutBreaks(s);
            && WholeLength(k, |t|)
            && forall i :: 0 <= i < |t| - 2 ==> t[i] != '='
  {
    BreaksAreSkipped(s);
    GroupsAccepted(k, WithoutBreaks(s));
    GroupsLength(k, WithoutBreaks(s));
    forall c | c in WithoutBreaks(s) ensures InAlphabet(k, c) {
      var i :| 0 <= i < |WithoutBreaks(s)| && WithoutBreaks(s)[i] == c;
    }
  }

  // ----- Text without the two special characters means the same in both alphabets

  predicate Neutral(s: string) { forall c :: c in s ==> c !in "-_+/" }

  lemma NeutralGroup(s: string)
    requires Neutral(s) && 2 <= |s| <= 4
    ensures Group(true, s) == Group(false, s)
  {
    forall i | 0 <= i < |s| ensures ValueOf(true, s[i]) == ValueOf(false, s[i]) {
      assert s[i] in s;
    }
    if Values(true, s).Some? {
      assert Values(true, s).value == Values(false, s).value;
    }
  }

  lemma {:induction false} NeutralGroups(padded: bool, s: string)
    requires Neutral(s)
    ensures DecodeGroups(Codec(true, padded), s) == DecodeGroups(Codec(false, padded), s)
    decreases |s|
  {
    if |s| >= 4 {
      NeutralGroup(s[..4]);
      NeutralGroup(s[..3]);
      NeutralGroup(s[..2]);
      NeutralGroups(padded, s[4..]);
    } else if |s| >= 2 {
      NeutralGroup(s);
    }
  }
}
