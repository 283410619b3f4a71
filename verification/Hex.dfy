/** Lower-case hexadecimal text of bytes, and the decoder that also reads upper case. */
module Hex {
  import opened Basics

  function Digit(n: nat): char
    requires n < 16
  {
    if n < 10 then '0' + n as char else 'a' + (n - 10) as char
  }

  function Undigit(c: char): (n: Option<nat>)
    ensures n.Some? ==> n.value < 16
  {
    if '0' <= c <= '9' then Some(c as nat - '0' as nat)
    else if 'a' <= c <= 'f' then Some(c as nat - 'a' as nat + 10)
    else if 'A' <= c <= 'F' then Some(c as nat - 'A' as nat + 10)
    else None
  }

  /** `hex.EncodeToString`, and the `%x` verb on a byte slice. */
  function Encode(data: Bytes): string {
    if data == [] then ""
    else [Digit(data[0] as nat / 16), Digit(data[0] as nat % 16)] + Encode(data[1..])
  }

  /** `hex.DecodeString`: None stands for its two errors, a bad digit and an odd length. */
  function Decode(s: string): Option<Bytes> {
    if s == "" then Some([])
    else if |s| == 1 then None
    else
      var high, low, rest := Undigit(s[0]), Undigit(s[1]), Decode(s[2..]);
      if high.Some? && low.Some? && rest.Some?
      then Some([(16 * high.value + low.value) as Byte] + rest.value)
      else None
  }

  predicate IsHexText(s: string) {
    forall i :: 0 <= i < |s| ==> '0' <= s[i] <= '9' || 'a' <= s[i] <= 'f'
  }

  lemma DigitRoundTrip(n: nat)
    requires n < 16
    ensures Undigit(Digit(n)) == Some(n)
    ensures IsHexText([Digit(n)])
  {
  }

  lemma DecodePair(b: Byte, text: string)
    ensures Decode([Digit(b as nat / 16), Digit(b as nat % 16)] + text) ==
            if Decode(text).Some? then Some([b] + Decode(text).value) else None
  {
    var high, low := b as nat / 16, b as nat % 16;
    DigitRoundTrip(high);
    DigitRoundTrip(low);
    var all := [Digit(high), Digit(low)] + text;
    assert all[0] == Digit(high) && all[1] == Digit(low) && all[2..] == text;
  }

  /** Encoding yields two hexadecimal digits a byte, and decoding undoes it. */
  lemma {:induction false} RoundTrip(data: Bytes)
    ensures Decode(Encode(data)) == Some(data)
    ensures |Encode(data)| == 2 * |data| && IsHexText(Encode(data))
  {
    if data == [] {
    } else {
      var b := data[0] as nat;
      DigitRoundTrip(b / 16);
      DigitRoundTrip(b % 16);
      RoundTrip(data[1..]);
      DecodePair(data[0], Encode(data[1..]));
      assert data == [data[0]] + data[1..];
    }
  }

  /** The high digit comes first, and digits above nine are the small letters from a on. */
  lemma EncodeExample()
    ensures Encode([0x0F, 0xA5]) == "0fa5"
  {
    assert [0x0F as Byte, 0xA5][1..] == [0xA5 as Byte] && [0xA5 as Byte][1..] == [];
  }

  function Lower(c: char): char {
    if 'A' <= c <= 'Z' then c - 'A' + 'a' else c
  }

  /** strings.EqualFold, where one side has only letters, digits and other ASCII characters. */
  predicate EqualFold(a: string, b: string) {
    |a| == |b| && forall i :: 0 <= i < |a| ==> Lower(a[i]) == Lower(b[i])
  }

  lemma FoldDigit(c: char, n: nat)
    requires n < 16
    ensures Lower(c) == Lower(Digit(n)) <==> Undigit(c) == Some(n)
  {
  }

  lemma FoldTail(a: string, b: string)
    requires |a| >= 2 && |b| >= 2
    ensures EqualFold(a, b) <==> Lower(a[0]) == Lower(b[0]) && Lower(a[1]) == Lower(b[1]) && EqualFold(a[2..], b[2..])
  {
    if EqualFold(a[2..], b[2..]) && Lower(a[0]) == Lower(b[0]) && Lower(a[1]) == Lower(b[1]) {
      assert forall i :: 2 <= i < |a| ==> a[i] == a[2..][i - 2] && b[i] == b[2..][i - 2];
    }
  }

  lemma DecodeStep(t: string, b: Byte, rest: Bytes)
    requires |t| >= 2
    ensures Decode(t) == Some([b] + rest) <==>
            && Undigit(t[0]) == Some(b as nat / 16) && Undigit(t[1]) == Some(b as nat % 16)
            && Decode(t[2..]) == Some(rest)
  {
    if Decode(t).Some? {
      var high, low, tail := Undigit(t[0]).value, Undigit(t[1]).value, Decode(t[2..]).value;
      var first := (16 * high + low) as Byte;
      assert Decode(t).value == [first] + tail;
      assert ([first] + tail)[1..] == tail && ([b] + rest)[1..] == rest;
    }
  }

  /** A text equals a digest, letter case aside, exactly if it is a spelling of the same bytes. */
  lemma {:induction false} FoldIsSpelling(t: string, data: Bytes)
    ensures EqualFold(t, Encode(data)) <==> Decode(t) == Some(data)
    decreases |t|
  {
    RoundTrip(data);
    if |t| >= 2 && data != [] {
      var b, rest := data[0], data[1..];
      FoldTail(t, Encode(data));
      assert Encode(data)[2..] == Encode(rest) && data == [b] + rest;
      FoldDigit(t[0], b as nat / 16);
      FoldDigit(t[1], b as nat % 16);
      FoldIsSpelling(t[2..], rest);
      DecodeStep(t, b, rest);
    }
  }
}
