/** Hexadecimal text and telephony BCD (`Tbcd` in `suci_deconcealing.go`, and the hex
    functions of the Go library it is combined with). */
module HexText {
  import opened Base

  type byte = bv8

  predicate IsDigit(c: char) { '0' <= c <= '9' }

  ghost predicate AllDigits(s: string) { forall i :: 0 <= i < |s| ==> IsDigit(s[i]) }

  // ---------- hexadecimal ----------

  function HexChar(n: bv8): char
    requires n < 16
  {
    if n == 0 then '0' else if n == 1 then '1' else if n == 2 then '2' else if n == 3 then '3'
    else if n == 4 then '4' else if n == 5 then '5' else if n == 6 then '6' else if n == 7 then '7'
    else if n == 8 then '8' else if n == 9 then '9' else if n == 10 then 'a' else if n == 11 then 'b'
    else if n == 12 then 'c' else if n == 13 then 'd' else if n == 14 then 'e' else 'f'
  }

  function HexVal(c: char): (r: Option<bv8>)
    ensures r.Some? ==> r.value < 16
  {
    if c == '0' then Some(0) else if c == '1' then Some(1) else if c == '2' then Some(2)
    else if c == '3' then Some(3) else if c == '4' then Some(4) else if c == '5' then Some(5)
    else if c == '6' then Some(6) else if c == '7' then Some(7) else if c == '8' then Some(8)
    else if c == '9' then Some(9)
    else if c == 'a' || c == 'A' then Some(10) else if c == 'b' || c == 'B' then Some(11)
    else if c == 'c' || c == 'C' then Some(12) else if c == 'd' || c == 'D' then Some(13)
    else if c == 'e' || c == 'E' then Some(14) else if c == 'f' || c == 'F' then Some(15)
    else None
  }

  predicate IsHex(c: char) { HexVal(c).Some? }

  ghost predicate AllHex(s: string) { forall i :: 0 <= i < |s| ==> IsHex(s[i]) }

  /** The lower-case form of a hex digit. */
  function Lower(c: char): char {
    if c == 'A' then 'a' else if c == 'B' then 'b' else if c == 'C' then 'c'
    else if c == 'D' then 'd' else if c == 'E' then 'e' else if c == 'F' then 'f' else c
  }

  function LowerAll(s: string): (r: string)
    ensures |r| == |s| && forall i :: 0 <= i < |s| ==> r[i] == Lower(s[i])
  {
    seq(|s|, i requires 0 <= i < |s| => Lower(s[i]))
  }

  lemma HexDigitRoundTrip(n: bv8)
    requires n < 16
    ensures HexVal(HexChar(n)) == Some(n)
  {}

  lemma HexCharOfVal(c: char)
    requires IsHex(c)
    ensures HexChar(HexVal(c).value) == Lower(c)
  {}

  function Join(h: bv8, l: bv8): byte { (h << 4) | l }

  function High(b: byte): (r: bv8) ensures r < 16 { b >> 4 }
  function Low(b: byte): (r: bv8) ensures r < 16 { b & 0x0F }

  lemma NibblesJoin(b: byte) ensures Join(High(b), Low(b)) == b {}

  lemma JoinNibbles(h: bv8, l: bv8)
    requires h < 16 && l < 16
    ensures High(Join(h, l)) == h && Low(Join(h, l)) == l
  {}

  /** `hex.EncodeToString`. */
  function HexEncode(b: seq<byte>): (s: string)
    ensures |s| == 2 * |b|
  {
    if b == [] then "" else [HexChar(High(b[0])), HexChar(Low(b[0]))] + HexEncode(b[1..])
  }

  /** `hex.DecodeString`: fails on odd lengths and on other characters. */
  function HexDecode(s: string): (r: Option<seq<byte>>)
    ensures r.Some? ==> 2 * |r.value| == |s|
    decreases |s|
  {
    if s == "" then Some([])
    else if |s| == 1 then None
    else
      var h :- HexVal(s[0]);
      var l :- HexVal(s[1]);
      var rest :- HexDecode(s[2..]);
      Some([Join(h, l)] + rest)
  }

  lemma {:induction false} HexDecodeEncode(b: seq<byte>)
    ensures HexDecode(HexEncode(b)) == Some(b) && AllHex(HexEncode(b))
  {
    hide HexChar, HexVal, Join, High, Low;
    if b != [] {
      HexDecodeEncode(b[1..]);
      HexDigitRoundTrip(High(b[0]));
      HexDigitRoundTrip(Low(b[0]));
      NibblesJoin(b[0]);
      var s := HexEncode(b);
      assert s[2..] == HexEncode(b[1..]);
      assert b == [b[0]] + b[1..];
      forall i | 0 <= i < |s| ensures IsHex(s[i]) {
        if i >= 2 { assert s[i] == HexEncode(b[1..])[i - 2]; }
      }
    }
  }

  /** Text of even length over hex digits decodes, and encodes back to its lower case. */
  lemma {:induction false} HexEncodeDecode(s: string)
    requires AllHex(s) && |s| % 2 == 0
    ensures HexDecode(s).Some? && HexEncode(HexDecode(s).value) == LowerAll(s)
    decreases |s|
  {
    hide HexChar, HexVal, Join, High, Low, Lower;
    if s != "" {
      assert IsHex(s[0]) && IsHex(s[1]);
      HexEncodeDecode(s[2..]);
      HexCharOfVal(s[0]);
      HexCharOfVal(s[1]);
      JoinNibbles(HexVal(s[0]).value, HexVal(s[1]).value);
      var b := HexDecode(s).value;
      assert b[1..] == HexDecode(s[2..]).value;
      assert LowerAll(s) == [Lower(s[0]), Lower(s[1])] + LowerAll(s[2..]);
    }
  }

  predicate HexCode(c: char) { '0' <= c <= '9' || 'a' <= c <= 'f' || 'A' <= c <= 'F' }

  /** The value of a hexadecimal digit, by the character codes. */
  function Nibble(c: char): bv8
    requires HexCode(c)
  {
    (c as int - (if c <= '9' then '0' as int else if c <= 'F' then 'A' as int - 10 else 'a' as int - 10)) as bv8
  }

  lemma HexValIs(c: char)
    ensures IsHex(c) <==> HexCode(c)
    ensures IsHex(c) ==> HexVal(c) == Some(Nibble(c))
  {
    if '0' <= c <= '9' {
      DigitValue(c);
    } else if 'a' <= c <= 'f' {
      SmallValue(c);
    } else if 'A' <= c <= 'F' {
      CapitalValue(c);
    }
    hide Nibble;
  }

  lemma DigitValue(c: char)
    requires '0' <= c <= '9'
    ensures HexVal(c) == Some(Nibble(c))
  {}

  lemma SmallValue(c: char)
    requires 'a' <= c <= 'f'
    ensures HexVal(c) == Some(Nibble(c))
  {}

  lemma CapitalValue(c: char)
    requires 'A' <= c <= 'F'
    ensures HexVal(c) == Some(Nibble(c))
  {}

  lemma HexCharIs(n: bv8)
    requires n < 16
    ensures HexCode(HexChar(n)) && Nibble(HexChar(n)) == n && !('A' <= HexChar(n) <= 'F')
  {}

  /** What the two digits at `i` say. */
  ghost predicate OctetIs(s: string, i: nat, b: byte)
    requires 2 * i + 1 < |s|
  {
    HexCode(s[2 * i]) && HexCode(s[2 * i + 1]) && b == 16 * Nibble(s[2 * i]) + Nibble(s[2 * i + 1])
  }

  /** DECODING, EXACTLY.  Text decodes if and only if its length is even and all of it are hex
      digits; then each octet has the value of its two digits. */
  lemma {:induction false} HexDecodeIs(s: string)
    ensures HexDecode(s).Some? <==> |s| % 2 == 0 && AllHex(s)
    ensures HexDecode(s).Some? ==>
              forall i :: 0 <= i < |HexDecode(s).value| ==> OctetIs(s, i, HexDecode(s).value[i])
    decreases |s|
  {
    hide HexVal, Nibble, Join, OctetIs, HexDecode;
    HexDecodeStep(s);
    if |s| >= 2 {
      var rest := s[2..];
      HexDecodeIs(rest);
      assert AllHex(s) <==> IsHex(s[0]) && IsHex(s[1]) && AllHex(rest) by {
        assert s == [s[0], s[1]] + rest;
      }
      if HexDecode(s).Some? {
        var b := HexDecode(s).value;
        forall i | 0 <= i < |b| ensures OctetIs(s, i, b[i]) {
          if i > 0 { OctetTail(s, i, b[i]); }
        }
      }
    }
  }

  lemma HexDecodeStep(s: string)
    ensures s == "" ==> HexDecode(s) == Some([])
    ensures |s| == 1 ==> HexDecode(s) == None
    ensures |s| >= 2 ==>
              (HexDecode(s).Some? <==> IsHex(s[0]) && IsHex(s[1]) && HexDecode(s[2..]).Some?)
    ensures |s| >= 2 && HexDecode(s).Some? ==>
              && HexDecode(s).value[1..] == HexDecode(s[2..]).value
              && OctetIs(s, 0, HexDecode(s).value[0])
  {
    if |s| >= 2 {
      HexValIs(s[0]);
      HexValIs(s[1]);
      if IsHex(s[0]) && IsHex(s[1]) { JoinIs(HexVal(s[0]).value, HexVal(s[1]).value); }
    }
    hide HexVal, Nibble, Join;
  }

  lemma OctetTail(s: string, i: nat, b: byte)
    requires 0 < i && 2 * i + 1 < |s| && OctetIs(s[2..], i - 1, b)
    ensures OctetIs(s, i, b)
  {
    assert s[2..][2 * (i - 1)] == s[2 * i] && s[2..][2 * (i - 1) + 1] == s[2 * i + 1];
    hide HexCode, Nibble;
  }

  /** ENCODING, EXACTLY.  Two digits per octet, none of them a capital letter. */
  lemma {:induction false} HexEncodeIs(b: seq<byte>)
    ensures forall i :: 0 <= i < |b| ==> OctetIs(HexEncode(b), i, b[i])
    ensures forall j :: 0 <= j < 2 * |b| ==> !('A' <= HexEncode(b)[j] <= 'F')
  {
    HexDecodeEncode(b);
    HexDecodeIs(HexEncode(b));
    if b != [] {
      HexEncodeIs(b[1..]);
      HexCharIs(High(b[0]));
      HexCharIs(Low(b[0]));
    }
    hide HexChar, OctetIs, HexDecode;
  }

  lemma JoinIs(h: bv8, l: bv8)
    requires h < 16 && l < 16
    ensures Join(h, l) == 16 * h + l
  {}

  // ---------- TBCD ----------

  function Swap(s: string): (r: string)
    requires |s| % 2 == 0
    ensures |r| == |s|
    decreases |s|
  {
    if s == "" then "" else [s[1], s[0]] + Swap(s[2..])
  }

  lemma {:induction false} SwapAt(s: string, i: nat)
    requires |s| % 2 == 0 && i < |s|
    ensures Swap(s)[i] == s[if i % 2 == 0 then i + 1 else i - 1]
    decreases |s|
  {
    if i >= 2 { SwapAt(s[2..], i - 2); }
  }

  lemma {:induction false} SwapTwice(s: string)
    requires |s| % 2 == 0
    ensures Swap(Swap(s)) == s
    decreases |s|
  {
    if s != "" {
      SwapTwice(s[2..]);
      assert Swap(s)[2..] == Swap(s[2..]);
    }
  }

  function Pad(s: string): (r: string)
    ensures |r| % 2 == 0
  {
    if |s| % 2 == 0 then s else s + "F"
  }

  function StripFiller(s: string): string
    requires s != ""
  {
    if s[|s| - 1] == 'F' || s[|s| - 1] == 'f' then s[..|s| - 1] else s
  }

  /** `Tbcd`; the Go code panics on the empty string. */
  function Tbcd(value: string): string
    requires value != ""
  {
    StripFiller(Swap(Pad(value)))
  }

  /** The loops of `Tbcd`, swapping in place. */
  method TbcdInPlace(value: string) returns (r: string)
    requires value != ""
    ensures r == Tbcd(value)
  {
    hide Swap;
    var padded := value;
    while |padded| % 2 != 0
      invariant padded == value || padded == Pad(value)
      decreases |padded| % 2
    {
      padded := padded + ['F'];
    }
    var n := |padded|;
    var bytes := new char[n](i requires 0 <= i < n => padded[i]);
    assert bytes[..] == padded;
    SwapPairs(bytes);
    var last := n - 1;
    if bytes[last] == 'F' || bytes[last] == 'f' {
      r := bytes[..last];
      assert r == bytes[..][..last];
    } else {
      r := bytes[..];
    }
  }

  /** The character that ends up at `k`. */
  function Swapped(s: string, k: nat): char
    requires |s| % 2 == 0 && k < |s|
  {
    if k % 2 == 0 then s[k + 1] else s[k - 1]
  }

  lemma SwappedPair(s: string, i: nat)
    requires |s| % 2 == 0 && i % 2 == 1 && i < |s|
    ensures Swapped(s, i - 1) == s[i] && Swapped(s, i) == s[i - 1]
  {}

  lemma SwapIs(s: string)
    requires |s| % 2 == 0
    ensures forall k :: 0 <= k < |s| ==> Swap(s)[k] == Swapped(s, k)
  {
    forall k | 0 <= k < |s| ensures Swap(s)[k] == Swapped(s, k) { SwapAt(s, k); }
  }

  method SwapPairs(bytes: array<char>)
    requires bytes.Length % 2 == 0
    modifies bytes
    ensures bytes[..] == Swap(old(bytes[..]))
  {
    ghost var was := bytes[..];
    SwapIs(was);
    hide Swap, Swapped;
    var i := 1;
    while i < bytes.Length
      invariant i % 2 == 1 && 1 <= i <= bytes.Length + 1
      invariant forall k :: i - 1 <= k < bytes.Length ==> bytes[k] == was[k]
      invariant forall k :: 0 <= k < i - 1 ==> bytes[k] == Swapped(was, k)
    {
      SwappedPair(was, i);
      bytes[i - 1], bytes[i] := bytes[i], bytes[i - 1];
      i := i + 2;
    }
  }

  lemma {:induction false} SwapLower(s: string)
    requires |s| % 2 == 0
    ensures Swap(LowerAll(s)) == LowerAll(Swap(s))
    decreases |s|
  {
    hide Lower;
    if s != "" {
      SwapLower(s[2..]);
      assert LowerAll(s)[2..] == LowerAll(s[2..]);
      assert Swap(s)[2..] == Swap(s[2..]);
    }
  }

  lemma LowerPadded(msin: string)
    requires AllDigits(msin)
    ensures LowerAll(Pad(msin)) == if |msin| % 2 == 0 then msin else msin + "f"
  {}

  /** Coding a number keeps every digit: hex digits of even length, none of them lost. */
  lemma TbcdOfDigits(msin: string)
    requires msin != "" && AllDigits(msin)
    ensures Tbcd(msin) == Swap(Pad(msin)) && AllHex(Tbcd(msin))
  {
    var p := Pad(msin);
    SwapAt(p, |p| - 1);
    forall i | 0 <= i < |p| ensures IsHex(Swap(p)[i]) {
      SwapAt(p, i);
      assert forall c: char :: IsDigit(c) ==> IsHex(c);
    }
  }

  /** ROUND TRIP.  Numbers of odd and of even length survive TBCD coding, transport as
      octets, and TBCD decoding. */
  lemma TbcdRoundTrip(msin: string)
    requires msin != "" && AllDigits(msin)
    ensures
      var packed := HexDecode(Tbcd(msin));
      && packed.Some? && packed.value != []
      && Tbcd(HexEncode(packed.value)) == msin
  {
    hide HexVal, Swap, HexDecode, HexEncode, Lower, LowerAll;
    TbcdOfDigits(msin);
    var p := Pad(msin);
    HexEncodeDecode(Swap(p));
    SwapLower(p);
    SwapTwice(LowerAll(p));
    LowerPadded(msin);
  }

  /** The decimal digit at `j`, or the filler behind the last one. */
  function DigitAt(msin: string, j: nat): bv8
    requires AllDigits(msin) && j <= |msin|
  {
    if j == |msin| then 15 else (msin[j] as int - '0' as int) as bv8
  }

  /** THE OCTETS OF A NUMBER.  Two digits each, the first one in the low half, and the filler 15
      behind an odd number of digits. */
  lemma TbcdOctets(msin: string)
    requires msin != "" && AllDigits(msin)
    ensures
      var packed := HexDecode(Tbcd(msin));
      && packed.Some? && |packed.value| == (|msin| + 1) / 2
      && forall i :: 0 <= i < |packed.value| ==>
           packed.value[i] == 16 * DigitAt(msin, 2 * i + 1) + DigitAt(msin, 2 * i)
  {
    hide HexVal, Swap, HexDecode, Nibble, DigitAt, AllHex, OctetIs;
    TbcdOfDigits(msin);
    var p := Pad(msin);
    HexDecodeIs(Swap(p));
    var packed := HexDecode(Swap(p)).value;
    forall i | 0 <= i < |packed| ensures packed[i] == 16 * DigitAt(msin, 2 * i + 1) + DigitAt(msin, 2 * i) {
      assert OctetIs(Swap(p), i, packed[i]);
      PairIs(msin, i, packed[i]);
    }
  }

  lemma PairIs(msin: string, i: nat, b: byte)
    requires AllDigits(msin) && 2 * i + 1 < |Pad(msin)| && OctetIs(Swap(Pad(msin)), i, b)
    ensures b == 16 * DigitAt(msin, 2 * i + 1) + DigitAt(msin, 2 * i)
  {
    var p := Pad(msin);
    SwapAt(p, 2 * i);
    SwapAt(p, 2 * i + 1);
    assert Swap(p)[2 * i] == p[2 * i + 1] && Swap(p)[2 * i + 1] == p[2 * i];
    hide Nibble, DigitAt, Swap;
    NibbleOf(msin, 2 * i);
    NibbleOf(msin, 2 * i + 1);
  }

  lemma NibbleOf(msin: string, j: nat)
    requires AllDigits(msin) && j < |Pad(msin)|
    ensures j <= |msin| && HexCode(Pad(msin)[j]) && Nibble(Pad(msin)[j]) == DigitAt(msin, j)
  {}
}
