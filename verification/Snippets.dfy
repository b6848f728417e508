/**
  Highlight ranges: byte offsets into UTF-8 text (section 3 of RFC 3629) become character offsets.
 */
module Snippets {
  import opened Values

  /** A Unicode scalar value: surrogates have no UTF-8 form. */
  type Scalar = c: nat | c < 0x110000 && !(0xD800 <= c < 0xE000)

  type Text = seq<Scalar>

  // ----- UTF-8 -----

  function EncodeOne(c: Scalar): (r: Bytes)
    ensures 1 <= |r| <= 4
  {
    if c < 0x80 then [c]
    else if c < 0x800 then [0xC0 + c / 64, 0x80 + c % 64]
    else if c < 0x10000 then [0xE0 + c / 4096, 0x80 + c / 64 % 64, 0x80 + c % 64]
    else [0xF0 + c / 262144, 0x80 + c / 4096 % 64, 0x80 + c / 64 % 64, 0x80 + c % 64]
  }

  function Encode(text: Text): Bytes {
    if text == [] then [] else EncodeOne(text[0]) + Encode(text[1..])
  }

  predicate Tail(b: Byte) {
    0x80 <= b < 0xC0
  }

  /** What a byte carries over the mark of its kind. */
  function Bits(b: Byte, mark: nat): (n: nat)
    requires mark <= b
  {
    b as int - mark
  }

  /** The character whose well-formed sequence stands at the front, if any. */
  function Front(bs: Bytes): (r: Option<Scalar>)
    ensures r.Some? ==> |EncodeOne(r.value)| <= |bs|
  {
    if bs == [] then None
    else if bs[0] < 0x80 then Some(bs[0])
    else if 0xC2 <= bs[0] < 0xE0 && |bs| >= 2 && Tail(bs[1]) then Some(Bits(bs[0], 0xC0) * 64 + Bits(bs[1], 0x80))
    else if 0xE0 <= bs[0] < 0xF0 && |bs| >= 3 && Tail(bs[1]) && Tail(bs[2])
            && (bs[0] == 0xE0 ==> bs[1] >= 0xA0) && (bs[0] == 0xED ==> bs[1] < 0xA0) then
      Some(Bits(bs[0], 0xE0) * 4096 + Bits(bs[1], 0x80) * 64 + Bits(bs[2], 0x80))
    else if 0xF0 <= bs[0] < 0xF5 && |bs| >= 4 && Tail(bs[1]) && Tail(bs[2]) && Tail(bs[3])
            && (bs[0] == 0xF0 ==> bs[1] >= 0x90) && (bs[0] == 0xF4 ==> bs[1] < 0x90) then
      Some(Bits(bs[0], 0xF0) * 262144 + Bits(bs[1], 0x80) * 4096 + Bits(bs[2], 0x80) * 64 + Bits(bs[3], 0x80))
    else None
  }

  /** Decoding that drops whatever is not well-formed. */
  function DecodeIgnoring(bs: Bytes): Text
    decreases |bs|
  {
    if bs == [] then []
    else
      var c := Front(bs);
      if c.Some? then [c.value] + DecodeIgnoring(bs[|EncodeOne(c.value)|..]) else DecodeIgnoring(bs[1..])
  }

  function Clamp(offset: int, n: nat): nat {
    if offset < 0 then 0 else if offset > n then n else offset
  }

  function ByteToChar(encoded: Bytes, offset: int): nat {
    |DecodeIgnoring(encoded[..Clamp(offset, |encoded|)])|
  }

  // ----- decoding what was encoded -----

  lemma SixBits(n: nat)
    ensures n == n / 64 * 64 + n % 64
  {
  }

  lemma FrontOfTwo(c: Scalar, rest: Bytes)
    requires 0x80 <= c < 0x800
    ensures Front([0xC0 + c / 64, 0x80 + c % 64] + rest) == Some(c)
  {
    SixBits(c);
  }

  lemma FrontOfThree(c: Scalar, rest: Bytes)
    requires 0x800 <= c < 0x10000
    ensures Front([0xE0 + c / 4096, 0x80 + c / 64 % 64, 0x80 + c % 64] + rest) == Some(c)
  {
    SixBits(c);
    SixBits(c / 64);
    assert c / 64 / 64 == c / 4096;
  }

  lemma FrontOfFour(c: Scalar, rest: Bytes)
    requires 0x10000 <= c
    ensures Front([0xF0 + c / 262144, 0x80 + c / 4096 % 64, 0x80 + c / 64 % 64, 0x80 + c % 64] + rest) == Some(c)
  {
    SixBits(c);
    SixBits(c / 64);
    SixBits(c / 4096);
    assert c / 64 / 64 == c / 4096 && c / 4096 / 64 == c / 262144;
  }

  lemma FrontOfEncoded(c: Scalar, rest: Bytes)
    ensures Front(EncodeOne(c) + rest) == Some(c)
  {
    if 0x80 <= c < 0x800 {
      FrontOfTwo(c, rest);
    } else if 0x800 <= c < 0x10000 {
      FrontOfThree(c, rest);
    } else if 0x10000 <= c {
      FrontOfFour(c, rest);
    }
  }

  /** A lead byte without all of its tail starts no character, and no tail byte does. */
  lemma TruncatedIsNothing(c: Scalar, n: nat)
    requires n < |EncodeOne(c)|
    ensures DecodeIgnoring(EncodeOne(c)[..n]) == []
  {
    var bs := EncodeOne(c)[..n];
    if n >= 1 {
      assert Front(bs).None?;
      TailsAreNothing(bs[1..]);
    }
  }

  lemma {:induction false} TailsAreNothing(bs: Bytes)
    requires forall i :: 0 <= i < |bs| ==> Tail(bs[i])
    ensures DecodeIgnoring(bs) == []
  {
    if bs != [] {
      TailsAreNothing(bs[1..]);
    }
  }

  /** The bytes before an offset decode to the characters that lie wholly before it. */
  lemma {:induction false} PrefixDecodes(text: Text, n: nat) returns (k: nat)
    requires n <= |Encode(text)|
    ensures k <= |text| && DecodeIgnoring(Encode(text)[..n]) == text[..k]
    ensures |Encode(text[..k])| <= n && (k < |text| ==> n < |Encode(text[..k + 1])|)
    decreases |text|
  {
    hide EncodeOne, Front;
    if text == [] {
      k := 0;
    } else {
      var first, rest := EncodeOne(text[0]), Encode(text[1..]);
      if n < |first| {
        k := 0;
        assert (first + rest)[..n] == first[..n];
        TruncatedIsNothing(text[0], n);
        EncodedFirst(text, 1);
      } else {
        var j := PrefixDecodes(text[1..], n - |first|);
        k := j + 1;
        assert (first + rest)[..n] == first + rest[..n - |first|];
        FrontOfEncoded(text[0], rest[..n - |first|]);
        assert (first + rest[..n - |first|])[|first|..] == rest[..n - |first|];
        EncodedFirst(text, k);
        if k < |text| {
          EncodedFirst(text, k + 1);
        }
        assert text[..k] == [text[0]] + text[1..][..j];
      }
    }
  }

  lemma EncodedFirst(text: Text, k: nat)
    requires 0 < k <= |text|
    ensures Encode(text[..k]) == EncodeOne(text[0]) + Encode(text[1..][..k - 1])
  {
    assert text[..k][1..] == text[1..][..k - 1];
  }

  /** Decoding undoes encoding. */
  lemma DecodeEncode(text: Text)
    ensures DecodeIgnoring(Encode(text)) == text
  {
    var n := |Encode(text)|;
    var k := PrefixDecodes(text, n);
    assert Encode(text)[..n] == Encode(text);
    if k < |text| {
      EncodeGrows(text, k + 1);
    }
    assert text[..|text|] == text;
  }

  lemma {:induction false} EncodeSplit(text: Text, k: nat)
    requires k <= |text|
    ensures Encode(text) == Encode(text[..k]) + Encode(text[k..])
  {
    if k > 0 {
      EncodeSplit(text[1..], k - 1);
      EncodedFirst(text, k);
      assert text[1..][k - 1..] == text[k..];
    }
  }

  lemma EncodeGrows(text: Text, k: nat)
    requires k <= |text|
    ensures |Encode(text[..k])| <= |Encode(text)|
  {
    EncodeSplit(text, k);
  }

  lemma {:induction false} PrefixesGrow(text: Text, i: nat, j: nat)
    requires i < j <= |text|
    ensures |Encode(text[..i])| < |Encode(text[..j])|
  {
    EncodeSplit(text[..j], i);
    assert text[..j][..i] == text[..i];
    assert text[..j][i..] != [];
  }

  // ----- the offsets -----

  /** The character offset is the best approximation from below: its characters fit before the byte
      offset, and one more would not. No other offset has this property. */
  lemma BestLowerApproximation(text: Text, offset: int, k: nat)
    requires k <= |text|
    ensures
      var at := Clamp(offset, |Encode(text)|);
      k == ByteToChar(Encode(text), offset) <==>
        |Encode(text[..k])| <= at && (k < |text| ==> at < |Encode(text[..k + 1])|)
  {
    var at := Clamp(offset, |Encode(text)|);
    var j := PrefixDecodes(text, at);
    if j < k {
      if j + 1 < k {
        PrefixesGrow(text, j + 1, k);
      }
    } else if k < j {
      if k + 1 < j {
        PrefixesGrow(text, k + 1, j);
      }
    }
  }

  /** Larger byte offsets never give smaller character offsets, and none exceeds the text. */
  lemma OffsetsAreMonotone(text: Text, a: int, b: int)
    requires a <= b
    ensures ByteToChar(Encode(text), a) <= ByteToChar(Encode(text), b) <= |text|
  {
    var m, n := Clamp(a, |Encode(text)|), Clamp(b, |Encode(text)|);
    var i := PrefixDecodes(text, m);
    var j := PrefixDecodes(text, n);
    if j < i {
      if j + 1 < i {
        PrefixesGrow(text, j + 1, i);
      }
    }
  }

  /** A range whose ends are character boundaries slices out exactly the bytes it named. */
  lemma AlignedRangesAreExact(text: Text, i: nat, j: nat)
    requires i <= j <= |text|
    ensures
      var encoded := Encode(text);
      var start, end := |Encode(text[..i])|, |Encode(text[..j])|;
      && start <= end <= |encoded|
      && ByteToChar(encoded, start) == i && ByteToChar(encoded, end) == j
      && Encode(text[ByteToChar(encoded, start)..ByteToChar(encoded, end)]) == encoded[start..end]
  {
    EncodeSplit(text, j);
    EncodeSplit(text[..j], i);
    assert text[..j][..i] == text[..i] && text[..j][i..] == text[i..j];
    EncodeGrows(text, i);
    if i < |text| {
      PrefixesGrow(text, i, i + 1);
    }
    if j < |text| {
      PrefixesGrow(text, j, j + 1);
    }
    BestLowerApproximation(text, |Encode(text[..i])|, i);
    BestLowerApproximation(text, |Encode(text[..j])|, j);
    assert Encode(text)[|Encode(text[..i])|..|Encode(text[..j])|] == Encode(text[i..j]);
  }

  // ----- the layout -----

  /** The bytes of a character: as many as its size needs, the first with the mark of their number, the others
      with the tail mark, and together its bits. */
  lemma EncodedOne(c: Scalar)
    ensures
      var bs := EncodeOne(c);
      && (|bs| == 1 <==> c < 0x80) && (|bs| == 2 <==> 0x80 <= c < 0x800) && (|bs| == 3 <==> 0x800 <= c < 0x10000)
      && (forall i :: 1 <= i < |bs| ==> 0x80 <= bs[i] < 0xC0)
      && (|bs| == 1 ==> bs[0] < 0x80 && c == bs[0])
      && (|bs| == 2 ==> 0xC0 <= bs[0] < 0xE0 && c == (bs[0] as int - 0xC0) * 64 + (bs[1] as int - 0x80))
      && (|bs| == 3 ==> 0xE0 <= bs[0] < 0xF0 && c == (bs[0] as int - 0xE0) * 4096 + (bs[1] as int - 0x80) * 64 + (bs[2] as int - 0x80))
      && (|bs| == 4 ==> 0xF0 <= bs[0] < 0xF8)
      && (|bs| == 4 ==>
           c == (bs[0] as int - 0xF0) * 262144 + (bs[1] as int - 0x80) * 4096 + (bs[2] as int - 0x80) * 64 + (bs[3] as int - 0x80))
  {
    SixBits(c);
    SixBits(c / 64);
    SixBits(c / 4096);
    assert c / 64 / 64 == c / 4096 && c / 4096 / 64 == c / 262144;
  }

  /** Offsets before the text are its start, and offsets behind it its end. */
  lemma OutsideOffsets(text: Text, offset: int)
    ensures offset <= 0 ==> ByteToChar(Encode(text), offset) == 0
    ensures offset >= |Encode(text)| ==> ByteToChar(Encode(text), offset) == |text|
  {
    assert Encode(text)[..0] == [];
    assert Encode(text)[..|Encode(text)|] == Encode(text);
    DecodeEncode(text);
  }
}
