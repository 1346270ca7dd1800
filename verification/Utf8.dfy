/** Cutting UTF-8 text to a byte budget without splitting a character (section 3 of RFC 3629). */
module Utf8 {
  import opened Base

  /** A Unicode scalar value: no surrogates. */
  type CodePoint = c: int | 0 <= c < 0xD800 || 0xE000 <= c < 0x11_0000

  function Tail(c: nat): Byte {
    0x80 + c % 64
  }

  function Encode(c: CodePoint): (r: seq<Byte>)
    ensures 1 <= |r| <= 4
    ensures !IsContinuation(r[0]) && forall i :: 0 < i < |r| ==> IsContinuation(r[i])
  {
    if c < 0x80 then [c]
    else if c < 0x800 then [0xC0 + c / 64, Tail(c)]
    else if c < 0x1_0000 then [0xE0 + c / 4096, Tail(c / 64), Tail(c)]
    else [0xF0 + c / 262144, Tail(c / 4096), Tail(c / 64), Tail(c)]
  }

  /** What a byte carries above the marker bits of its kind. */
  function Payload(b: Byte, marker: int): int {
    b as int - marker
  }

  /** The code point that an encoded character stands for: the payload of its bytes in order. */
  function CodeOf(bytes: seq<Byte>): int
    requires 1 <= |bytes| <= 4
  {
    if |bytes| == 1 then bytes[0]
    else if |bytes| == 2 then Payload(bytes[0], 0xC0) * 64 + Payload(bytes[1], 0x80)
    else if |bytes| == 3 then
      Payload(bytes[0], 0xE0) * 4096 + Payload(bytes[1], 0x80) * 64 + Payload(bytes[2], 0x80)
    else
      Payload(bytes[0], 0xF0) * 262144 + Payload(bytes[1], 0x80) * 4096 + Payload(bytes[2], 0x80) * 64 + Payload(bytes[3], 0x80)
  }

  /** Decoding undoes encoding, and the encoding is the shortest that holds the code point. */
  lemma {:induction false} EncodeRoundTrip(c: CodePoint)
    ensures CodeOf(Encode(c)) == c
    ensures |Encode(c)| == if c < 0x80 then 1 else if c < 0x800 then 2 else if c < 0x1_0000 then 3 else 4
  {
    assert c / 4096 == c / 64 / 64;
    assert c / 262144 == c / 64 / 64 / 64;
  }

  predicate IsContinuation(b: Byte) {
    0x80 <= b < 0xC0
  }

  function EncodeAll(text: seq<CodePoint>): seq<Byte> {
    if text == [] then [] else EncodeAll(text[..|text| - 1]) + Encode(text[|text| - 1])
  }

  /** `is_char_boundary` */
  predicate IsBoundary(bytes: seq<Byte>, i: nat) {
    i == 0 || i == |bytes| || (i < |bytes| && !IsContinuation(bytes[i]))
  }

  /** `truncate_to_byte_budget`: step back from the budget to the nearest boundary. */
  method TruncateToByteBudget(bytes: seq<Byte>, budget: nat) returns (r: seq<Byte>)
    ensures |bytes| <= budget ==> r == bytes
    ensures |bytes| > budget ==>
              && |r| <= budget && r == bytes[..|r|] && IsBoundary(bytes, |r|)
              && forall i :: |r| < i <= budget ==> !IsBoundary(bytes, i)
  {
    if |bytes| <= budget {
      return bytes;
    }
    var end := budget;
    while end > 0 && !IsBoundary(bytes, end)
      invariant 0 <= end <= budget
      invariant forall i :: end < i <= budget ==> !IsBoundary(bytes, i)
    {
      end := end - 1;
    }
    r := bytes[..end];
  }

  function Length(text: seq<CodePoint>, n: nat): nat
    requires n <= |text|
  {
    |EncodeAll(text[..n])|
  }

  lemma {:induction false} PrefixOfEncoding(text: seq<CodePoint>, n: nat)
    requires n <= |text|
    ensures Length(text, n) <= |EncodeAll(text)|
    ensures EncodeAll(text)[..Length(text, n)] == EncodeAll(text[..n])
    ensures n < |text| ==> Length(text, n) < |EncodeAll(text)|
  {
    var last := |text| - 1;
    if n == |text| {
      assert text[..n] == text;
    } else {
      assert text[..last][..n] == text[..n];
      PrefixOfEncoding(text[..last], n);
    }
  }

  lemma {:induction false} LengthStep(text: seq<CodePoint>, n: nat)
    requires n < |text|
    ensures Length(text, n + 1) == Length(text, n) + |Encode(text[n])|
  {
    assert text[..n + 1][..n] == text[..n];
  }

  /** The boundaries of an encoded text are exactly the ends of its characters. */
  lemma {:induction false} BoundaryIsWholeChars(text: seq<CodePoint>, i: nat) returns (n: nat)
    requires i <= |EncodeAll(text)| && IsBoundary(EncodeAll(text), i)
    ensures n <= |text| && Length(text, n) == i
  {
    if i == |EncodeAll(text)| {
      n := |text|;
      assert text[..n] == text;
    } else {
      var last := |text| - 1;
      var front := EncodeAll(text[..last]);
      if i < |front| {
        assert EncodeAll(text)[i] == front[i];
        n := BoundaryIsWholeChars(text[..last], i);
        assert text[..last][..n] == text[..n];
      } else {
        assert EncodeAll(text)[i] == Encode(text[last])[i - |front|];
        n := last;
      }
    }
  }

  lemma {:induction false} WholeCharsAreBoundary(text: seq<CodePoint>, n: nat)
    requires n <= |text|
    ensures Length(text, n) <= |EncodeAll(text)| && IsBoundary(EncodeAll(text), Length(text, n))
  {
    PrefixOfEncoding(text, n);
    if n < |text| {
      LengthStep(text, n);
      PrefixOfEncoding(text, n + 1);
      var whole, i := EncodeAll(text), Length(text, n);
      assert text[..n + 1][..n] == text[..n];
      assert whole[i] == whole[..Length(text, n + 1)][i];
      assert whole[i] == Encode(text[n])[0];
    } else {
      assert text[..n] == text;
    }
  }

  /**
   On valid text, what the truncation returns is the longest prefix of whole characters
   that fits the budget, and it gives up at most three bytes of it.
   */
  lemma {:induction false} TruncationKeepsWholeChars(text: seq<CodePoint>, budget: nat, r: seq<Byte>) returns (n: nat)
    requires |EncodeAll(text)| > budget
    requires |r| <= budget && r == EncodeAll(text)[..|r|] && IsBoundary(EncodeAll(text), |r|)
    requires forall i :: |r| < i <= budget ==> !IsBoundary(EncodeAll(text), i)
    ensures n < |text| && r == EncodeAll(text[..n])
    ensures Length(text, n + 1) > budget
    ensures budget - |r| <= 3
  {
    n := BoundaryIsWholeChars(text, |r|);
    PrefixOfEncoding(text, n);
    assert text[..|text|] == text;
    LengthStep(text, n);
    WholeCharsAreBoundary(text, n + 1);
  }
}
