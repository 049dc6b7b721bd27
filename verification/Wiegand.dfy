/** A Wiegand reader: one interrupt per bit, collected in a byte buffer, printed as card text
when the line falls silent. */
module Wiegand {
  import opened PropertyTree
  import opened Cards

  const BUFFER_SIZE: nat := 16

  // ---- bits, bytes and numbers ----

  /** The number that bits spell, the first one being the most significant. */
  function Value(bits: seq<bool>): nat {
    if bits == [] then 0 else 2 * Value(bits[..|bits| - 1]) + if bits[|bits| - 1] then 1 else 0
  }

  /** Bit `j` of a byte, counted from the most significant. */
  function Mask(j: nat): bv8
    requires j < 8
  {
    if j == 0 then 0x80 else if j == 1 then 0x40 else if j == 2 then 0x20 else if j == 3 then 0x10
    else if j == 4 then 0x08 else if j == 5 then 0x04 else if j == 6 then 0x02 else 0x01
  }

  lemma MaskIsShift(j: nat)
    requires j < 8
    ensures Mask(j) == (1 as bv8) << (7 - j)
  {
  }

  predicate Bit(b: bv8, j: nat)
    requires j < 8
  {
    b & Mask(j) != 0
  }

  function WriteBit(b: bv8, j: nat, high: bool): bv8
    requires j < 8
  {
    if high then b | Mask(j) else b & !Mask(j)
  }

  lemma WriteOne(b: bv8, j: nat, high: bool, k: nat)
    requires j < 8 && k < 8
    ensures Bit(WriteBit(b, j, high), k) == if k == j then high else Bit(b, k)
  {
  }

  function ByteBits(b: bv8): seq<bool> {
    [Bit(b, 0), Bit(b, 1), Bit(b, 2), Bit(b, 3), Bit(b, 4), Bit(b, 5), Bit(b, 6), Bit(b, 7)]
  }

  function BufferBits(bs: seq<bv8>): seq<bool> {
    if bs == [] then [] else BufferBits(bs[..|bs| - 1]) + ByteBits(bs[|bs| - 1])
  }

  lemma {:induction false} BufferBitAt(bs: seq<bv8>, i: nat)
    requires i < 8 * |bs|
    ensures |BufferBits(bs)| == 8 * |bs|
    ensures BufferBits(bs)[i] == Bit(bs[i / 8], i % 8)
  {
    var front, last := bs[..|bs| - 1], bs[|bs| - 1];
    if front != [] { BufferBitAt(front, if i < 8 * |front| then i else 0); }
    assert |BufferBits(front)| == 8 * |front|;
    if i >= 8 * |front| {
      var j := i - 8 * |front|;
      assert i / 8 == |front| && i % 8 == j;
      ByteBitAt(last, j);
      assert BufferBits(bs)[i] == ByteBits(last)[j];
    }
  }

  lemma ByteBitAt(b: bv8, j: nat)
    requires j < 8
    ensures ByteBits(b)[j] == Bit(b, j)
  {
    assert j == 0 || j == 1 || j == 2 || j == 3 || j == 4 || j == 5 || j == 6 || j == 7;
  }

  lemma BufferLength(bs: seq<bv8>)
    ensures |BufferBits(bs)| == 8 * |bs|
  {
    if bs != [] { BufferBitAt(bs, 0); }
  }

  /** Writing a bit of one byte writes that bit of the buffer and no other. */
  lemma BufferWrite(bs: seq<bv8>, i: nat, high: bool)
    requires i < 8 * |bs|
    ensures |BufferBits(bs)| == 8 * |bs|
    ensures BufferBits(bs[i / 8 := WriteBit(bs[i / 8], i % 8, high)]) == BufferBits(bs)[i := high]
  {
    BufferLength(bs);
    var after := bs[i / 8 := WriteBit(bs[i / 8], i % 8, high)];
    BufferLength(after);
    forall k | 0 <= k < 8 * |bs| ensures BufferBits(after)[k] == BufferBits(bs)[i := high][k] {
      BufferBitAt(bs, k);
      BufferBitAt(after, k);
      WriteOne(bs[i / 8], i % 8, high, k % 8);
      assert k != i ==> k / 8 != i / 8 || k % 8 != i % 8;
    }
  }

  lemma {:induction false} ValueConcat(a: seq<bool>, b: seq<bool>)
    ensures Value(a + b) == Value(a) * Pow2(|b|) + Value(b)
    ensures Value(b) < Pow2(|b|)
  {
    if b == [] {
      assert a + b == a;
    } else {
      var front := b[..|b| - 1];
      assert (a + b)[..|a + b| - 1] == a + front;
      ValueConcat(a, front);
      assert Value(a + b) == 2 * Value(a + front) + if b[|b| - 1] then 1 else 0;
      Doubled(Value(a), Pow2(|front|));
    }
  }

  /** The same with each bit weighed by its place. */
  function WeightSum(bits: seq<bool>): nat {
    if bits == [] then 0 else (if bits[0] then Pow2(|bits| - 1) else 0) + WeightSum(bits[1..])
  }

  lemma {:induction false} ValueIsWeightSum(bits: seq<bool>)
    ensures Value(bits) == WeightSum(bits)
  {
    if bits != [] {
      ValueIsWeightSum(bits[1..]);
      assert bits == [bits[0]] + bits[1..];
      ValueConcat([bits[0]], bits[1..]);
      assert [bits[0]][..0] == [] && Value([bits[0]]) == if bits[0] then 1 else 0;
    }
  }

  lemma FourBits(x: seq<bool>)
    requires |x| == 4
    ensures Value(x) == (if x[0] then 8 else 0) + (if x[1] then 4 else 0) + (if x[2] then 2 else 0)
      + (if x[3] then 1 else 0)
  {
    assert x[..3][..2] == x[..2] && x[..2][..1] == x[..1] && x[..1][..0] == [];
    assert Value(x[..1]) == if x[0] then 1 else 0;
    assert Value(x[..2]) == 2 * Value(x[..1]) + if x[1] then 1 else 0;
    assert Value(x[..3]) == 2 * Value(x[..2]) + if x[2] then 1 else 0;
  }

  lemma EightBits(x: seq<bool>)
    requires |x| == 8
    ensures Value(x) == (if x[0] then 128 else 0) + (if x[1] then 64 else 0) + (if x[2] then 32 else 0)
      + (if x[3] then 16 else 0) + (if x[4] then 8 else 0) + (if x[5] then 4 else 0) + (if x[6] then 2 else 0)
      + (if x[7] then 1 else 0)
  {
    var high, low := x[..4], x[4..];
    assert x == high + low;
    assert Pow2(2) == 4 && Pow2(4) == 16;
    ValueConcat(high, low);
    assert Value(x) == Value(high) * 16 + Value(low);
    FourBits(high);
    FourBits(low);
  }

  lemma BitWorths(b: bv8)
    ensures (b & 0x80) as nat == (if Bit(b, 0) then 128 else 0) && (b & 0x40) as nat == (if Bit(b, 1) then 64 else 0)
    ensures (b & 0x20) as nat == (if Bit(b, 2) then 32 else 0) && (b & 0x10) as nat == (if Bit(b, 3) then 16 else 0)
    ensures (b & 0x08) as nat == (if Bit(b, 4) then 8 else 0) && (b & 0x04) as nat == (if Bit(b, 5) then 4 else 0)
    ensures (b & 0x02) as nat == (if Bit(b, 6) then 2 else 0) && (b & 0x01) as nat == (if Bit(b, 7) then 1 else 0)
  {
  }

  lemma ByteIsItsBits(b: bv8)
    ensures b as nat == (b & 0x80) as nat + (b & 0x40) as nat + (b & 0x20) as nat + (b & 0x10) as nat
      + (b & 0x08) as nat + (b & 0x04) as nat + (b & 0x02) as nat + (b & 0x01) as nat
  {
  }

  /** The bits of a byte spell the byte. */
  lemma ByteValue(b: bv8)
    ensures Value(ByteBits(b)) == b as nat
  {
    EightBits(ByteBits(b));
    BitWorths(b);
    ByteIsItsBits(b);
  }

  /** Different bits spell different numbers. */
  lemma {:induction false} ValueInjective(a: seq<bool>, b: seq<bool>)
    requires |a| == |b| && Value(a) == Value(b)
    ensures a == b
  {
    if a != [] {
      var n := |a| - 1;
      ValueInjective(a[..n], b[..n]);
      assert a == a[..n] + [a[n]] && b == b[..n] + [b[n]];
    }
  }

  lemma Doubled(x: nat, p: nat)
    ensures x * (2 * p) == 2 * (x * p)
  {
  }

  lemma Quotient(q: nat, d: nat, r: nat)
    requires r < d
    ensures (q * d + r) / d == q && (q * d + r) % d == r
  {
    var x := q * d + r;
    var k := x / d - q;
    assert x == (q + k) * d + x % d;
    Spread(q, k, d);
    Beyond(k, d);
  }

  lemma Spread(q: int, k: int, d: int)
    ensures (q + k) * d == q * d + k * d
  {
  }

  lemma Beyond(k: int, d: int)
    requires d >= 0
    ensures k >= 1 ==> k * d >= d
    ensures k <= -1 ==> k * d <= -d
  {
  }

  /** Dropping trailing bits is a shift. */
  lemma {:induction false} ValueShift(a: seq<bool>, b: seq<bool>)
    ensures ShiftRight(Value(a + b), |b|) == Value(a)
  {
    if b == [] {
      assert a + b == a;
    } else {
      var front := b[..|b| - 1];
      assert (a + b)[..|a + b| - 1] == a + front;
      ValueShift(a, front);
    }
  }

  /** Dropping trailing bits divides, keeping only them takes the remainder. */
  lemma ValueSplit(a: seq<bool>, b: seq<bool>)
    ensures Value(a + b) / Pow2(|b|) == Value(a) && Value(a + b) % Pow2(|b|) == Value(b)
  {
    ValueConcat(a, b);
    Quotient(Value(a), Pow2(|b|), Value(b));
  }

  // ---- printing ----

  function HexDigit(bits: seq<bool>): (c: char)
    requires |bits| == 4
    ensures IsHex(c) && DigitValue(c) == Value(bits)
  {
    ValueOfFour(bits);
    var d := Value(bits);
    if d < 10 then ('0' as int + d) as char else ('a' as int + (d - 10)) as char
  }

  lemma ValueOfFour(bits: seq<bool>)
    requires |bits| == 4
    ensures Value(bits) < 16
  {
    ValueConcat([], bits);
    assert Pow2(4) == 16;
  }

  /** Two hexadecimal digits, padded with a zero. */
  function HexByte(bits: seq<bool>): (s: string)
    requires |bits| == 8
    ensures |s| == 2 && IsHex(s[0]) && IsHex(s[1])
  {
    [HexDigit(bits[..4]), HexDigit(bits[4..])]
  }

  function CardText(bs: seq<bv8>): string {
    if bs == [] then ""
    else if |bs| == 1 then HexByte(ByteBits(bs[0]))
    else CardText(bs[..|bs| - 1]) + ":" + HexByte(ByteBits(bs[|bs| - 1]))
  }

  function HexText(bs: seq<bv8>): (s: string)
    ensures AllHex(s) && |s| == 2 * |bs|
  {
    if bs == [] then "" else HexText(bs[..|bs| - 1]) + HexByte(ByteBits(bs[|bs| - 1]))
  }

  lemma {:induction false} CardTextFormat(bs: seq<bv8>)
    requires bs != []
    ensures |CardText(bs)| == 3 * |bs| - 1 && CardFormat(CardText(bs))
  {
    if |bs| > 1 {
      CardTextFormat(bs[..|bs| - 1]);
      FormatExtends(CardText(bs[..|bs| - 1]), HexByte(ByteBits(bs[|bs| - 1])));
    }
  }

  lemma {:induction false} FormatExtends(front: string, b: string)
    requires CardFormat(front) && |b| == 2 && IsHex(b[0]) && IsHex(b[1])
    ensures CardFormat(front + ":" + b)
  {
    var s := front + ":" + b;
    if |front| == 2 {
      assert s[3..] == b;
    } else {
      FormatExtends(front[3..], b);
      assert s[3..] == front[3..] + ":" + b;
    }
  }

  lemma {:induction false} RemoveColonsConcat(a: string, b: string)
    ensures RemoveColons(a + b) == RemoveColons(a) + RemoveColons(b)
  {
    if a == "" {
      assert a + b == b;
    } else {
      assert (a + b)[1..] == a[1..] + b;
      RemoveColonsConcat(a[1..], b);
    }
  }

  lemma RemoveColonsByte(bits: seq<bool>)
    requires |bits| == 8
    ensures RemoveColons(HexByte(bits)) == HexByte(bits)
  {
    RemoveColonsByByte(HexByte(bits));
  }

  lemma RemoveColonsJoin(a: string, b: string)
    ensures RemoveColons(a + ":" + b) == RemoveColons(a) + RemoveColons(b)
  {
    RemoveColonsConcat(a + ":", b);
    RemoveColonsConcat(a, ":");
    ColonRemoved(":");
  }

  lemma ColonRemoved(s: string)
    requires |s| == 1 && s[0] == ':'
    ensures RemoveColons(s) == ""
  {
    assert s[1..] == "";
  }

  lemma {:induction false} DigitsOfText(bs: seq<bv8>)
    ensures RemoveColons(CardText(bs)) == HexText(bs)
  {
    if bs != [] {
      var front, last := bs[..|bs| - 1], ByteBits(bs[|bs| - 1]);
      RemoveColonsByte(last);
      if |bs| == 1 {
        assert front == [] && HexText(front) == "";
      } else {
        DigitsOfText(front);
        RemoveColonsJoin(CardText(front), HexByte(last));
      }
    }
  }

  lemma {:induction false} HexTextValue(bs: seq<bv8>)
    ensures HexValue(HexText(bs)) == Value(BufferBits(bs))
  {
    if bs != [] {
      HexTextValue(bs[..|bs| - 1]);
      AppendByte(HexText(bs[..|bs| - 1]), BufferBits(bs[..|bs| - 1]), ByteBits(bs[|bs| - 1]));
    }
  }

  lemma AppendByte(s: string, x: seq<bool>, bits: seq<bool>)
    requires AllHex(s) && HexValue(s) == Value(x) && |bits| == 8
    ensures AllHex(s + HexByte(bits)) && HexValue(s + HexByte(bits)) == Value(x + bits)
  {
    var high, low := bits[..4], bits[4..];
    TwoDigits(s, HexDigit(high), HexDigit(low));
    assert s + HexByte(bits) == s + [HexDigit(high)] + [HexDigit(low)];
    TwoNibbles(x, high, low);
    assert x + bits == x + high + low;
  }

  /** A byte is printed as two digits that spell it. */
  lemma PrintedByte(b: bv8)
    ensures var s := HexByte(ByteBits(b)); |s| == 2 && AllHex(s) && HexValue(s) == b as nat
  {
    AppendByte("", [], ByteBits(b));
    assert "" + HexByte(ByteBits(b)) == HexByte(ByteBits(b)) && [] + ByteBits(b) == ByteBits(b);
    ByteValue(b);
  }

  lemma TwoNibbles(x: seq<bool>, a: seq<bool>, b: seq<bool>)
    requires |a| == |b| == 4
    ensures Value(x + a + b) == 16 * (16 * Value(x) + Value(a)) + Value(b)
  {
    assert Pow2(2) == 4 && Pow2(4) == 16;
    ValueConcat(x, a);
    assert Value(x + a) == Value(x) * 16 + Value(a);
    ValueConcat(x + a, b);
    assert Value(x + a + b) == Value(x + a) * 16 + Value(b);
  }

  lemma TwoDigits(s: string, a: char, b: char)
    requires AllHex(s) && IsHex(a) && IsHex(b)
    ensures AllHex(s + [a] + [b]) && HexValue(s + [a] + [b]) == 16 * (16 * HexValue(s) + DigitValue(a)) + DigitValue(b)
  {
    assert (s + [a])[..|s|] == s;
    assert (s + [a] + [b])[..|s| + 1] == s + [a];
  }

  // ---- end to end ----

  /** The number of bytes that hold `n` bits. */
  function ByteCount(n: nat): nat
    requires n > 0
  {
    (n - 1) / 8 + 1
  }

  /** Up to 64 bits received from the wire, whatever the buffer held behind them before, are
      printed as a text that the validator accepts and that decodes to the number they spell. */
  lemma WireToNumber(bits: seq<bool>, bs: seq<bv8>)
    requires 1 <= |bits| <= 64 && |bs| == ByteCount(|bits|)
    requires bits <= BufferBits(bs)
    ensures var id := CardText(bs);
            && CardFormat(Strip(id))
            && ToRawInt(Card(id, |bits|)) == Ok(Value(bits))
  {
    TextDecodes(bs);
    BufferLength(bs);
    RawOfHex(Card(CardText(bs), |bits|));
    FillingDropped(bits, BufferBits(bs));
  }

  lemma FillingDropped(bits: seq<bool>, all: seq<bool>)
    requires 1 <= |bits| <= 64 && |all| == 8 * ByteCount(|bits|) && bits <= all
    requires Value(all) < 0x1_0000_0000_0000_0000
    ensures DropFilling(Value(all), |bits|) == Ok(Value(bits))
  {
    var rest := all[|bits|..];
    assert all == bits + rest;
    PaddingIsRemainder(|bits|);
    ValueShift(bits, rest);
  }

  /** The printed text is accepted, and its digits spell the bits of the bytes. */
  lemma TextDecodes(bs: seq<bv8>)
    requires 1 <= |bs| <= 8
    ensures var raw := RemoveColons(CardText(bs));
            && CardFormat(Strip(CardText(bs))) && AllHex(raw) && raw != ""
            && HexValue(raw) == Value(BufferBits(bs)) < 0x1_0000_0000_0000_0000
  {
    CardTextFormat(bs);
    FormatHasNoSpace(CardText(bs));
    DigitsOfFormat(CardText(bs));
    DigitsOfText(bs);
    HexTextValue(bs);
  }

  lemma CardTextAccepted(bs: seq<bv8>)
    requires bs != []
    ensures CardFormat(Strip(CardText(bs)))
  {
    CardTextFormat(bs);
    FormatHasNoSpace(CardText(bs));
  }

  lemma PaddingIsRemainder(n: nat)
    requires 1 <= n <= 64
    ensures TruncatedRemainder(64 - n, 8) == 8 * ByteCount(n) - n
  {
    var k := ByteCount(n);
    assert 64 - n == 8 * (8 - k) + (8 * k - n);
  }

  /** For the two known formats the number is what stands between the parity bits' sides: the
      last bit is dropped, and 16 or 24 bits before it are kept. */
  lemma WireToFormat(bits: seq<bool>, bs: seq<bv8>)
    requires (|bits| == 26 || |bits| == 34) && |bs| == ByteCount(|bits|) && bits <= BufferBits(bs)
    ensures ToInt(Card(CardText(bs), |bits|)) == Ok(Value(bits[9..|bits| - 1]))
  {
    WireToNumber(bits, bs);
    DropParity(bits);
    Pow64();
  }

  lemma DropParity(bits: seq<bool>)
    requires |bits| > 9
    ensures Value(bits) / 2 % Pow2(|bits| - 10) == Value(bits[9..|bits| - 1])
  {
    var n := |bits|;
    var kept, last := bits[..n - 1], bits[n - 1..];
    assert bits == kept + last && kept == bits[..9] + bits[9..n - 1];
    ValueSplit(kept, last);
    ValueSplit(bits[..9], bits[9..n - 1]);
    assert Pow2(1) == 2;
  }

  // ---- the reader ----

  /** What is left of a burst: every 129th interrupt starts the count again and is not stored. */
  function Received(bits: seq<bool>): seq<bool> {
    bits[|bits| - |bits| % 129..]
  }

  lemma LapsDropped(n: nat, laps: nat, rest: nat)
    requires n == 129 * laps + rest && rest < 129
    ensures n % 129 == rest
  {
  }

  lemma Appended(bits: seq<bool>, i: nat, n: nat)
    requires n <= i < |bits|
    ensures bits[i - n..i + 1] == bits[i - n..i] + [bits[i]]
  {
  }

  /** A burst of which nothing is left gives no card; up to 64 bits give the number they spell. */
  ghost predicate Decodes(burst: seq<bool>, raw: Option<Result<nat>>) {
    var b := Received(burst);
    && (raw == None <==> b == [])
    && (1 <= |b| <= 64 ==> raw == Some(Ok(Value(b))))
  }

  class WiegandReader {
    const buffer: array<bv8>
    var counter: nat

    ghost predicate Valid()
      reads this
    {
      buffer.Length == BUFFER_SIZE && counter <= 128
    }

    ghost function Bits(): seq<bool>
      reads buffer
    {
      BufferBits(buffer[..])
    }

    constructor ()
      ensures Valid() && counter == 0 && fresh(buffer)
    {
      buffer := new bv8[BUFFER_SIZE](_ => 0);
      counter := 0;
    }

    /** One interrupt. After 128 bits the count starts again, but the buffer is left as it is. */
    method HandleBit(high: bool)
      requires Valid()
      modifies this, buffer
      ensures Valid() && |Bits()| == |old(Bits())| == 128
      ensures old(counter) < 128 ==> counter == old(counter) + 1 && Bits() == old(Bits())[old(counter) := high]
      ensures old(counter) == 128 ==> counter == 0 && Bits() == old(Bits())
    {
      BufferLength(buffer[..]);
      if counter < 128 {
        BufferWrite(buffer[..], counter, high);
        var i := counter / 8;
        ghost var before := buffer[..];
        buffer[i] := WriteBit(buffer[i], counter % 8, high);
        assert buffer[..] == before[i := WriteBit(before[i], counter % 8, high)];
        counter := counter + 1;
      } else {
        counter := 0;
      }
    }

    /** A burst of interrupts, of any length. */
    method HandleBits(bits: seq<bool>)
      requires Valid() && counter == 0
      modifies this, buffer
      ensures Valid() && counter == |Received(bits)| && Received(bits) <= Bits()
    {
      BufferLength(buffer[..]);
      ghost var laps := 0;
      for i := 0 to |bits|
        invariant Valid() && i == 129 * laps + counter && |Bits()| == 128
        invariant Bits()[..counter] == bits[i - counter..i]
      {
        ghost var before := counter;
        HandleBit(bits[i]);
        if before < 128 {
          Appended(bits, i, before);
          assert Bits()[..before + 1] == Bits()[..before] + [bits[i]];
        } else {
          laps := laps + 1;
        }
      }
      LapsDropped(|bits|, laps, counter);
    }

    /** The line has fallen silent: print what was received. */
    method Timeout() returns (r: Option<(string, nat)>)
      requires Valid()
      ensures counter == 0 ==> r == None
      ensures counter > 0 ==> r == Some((CardText(buffer[..ByteCount(counter)]), counter))
    {
      if counter == 0 { return None; }
      var size, text := ByteCount(counter), "";
      for i := 0 to size
        invariant text == CardText(buffer[..i]) + if 0 < i < size then ":" else ""
      {
        assert buffer[..i + 1][..i] == buffer[..i];
        text := text + HexByte(ByteBits(buffer[i]));
        assert text == CardText(buffer[..i + 1]);
        if i + 1 < size {
          text := text + ":";
        }
      }
      assert text == CardText(buffer[..size]);
      return Some((text, counter));
    }

    method ReadReset()
      requires Valid()
      modifies this, buffer
      ensures Valid() && counter == 0 && forall i | 0 <= i < BUFFER_SIZE :: buffer[i] == 0
    {
      counter := 0;
      for i := 0 to BUFFER_SIZE
        invariant Valid() && counter == 0 && forall k | 0 <= k < i :: buffer[k] == 0
      {
        buffer[i] := 0;
      }
    }

    /** A burst, then silence: what is printed makes a card, the card gives a number, and the
        reader is ready for the next burst. */
    method ReadCard(bits: seq<bool>) returns (raw: Option<Result<nat>>)
      requires Valid() && counter == 0
      modifies this, buffer
      ensures Valid() && counter == 0 && Decodes(bits, raw)
    {
      HandleBits(bits);
      var sent := Timeout();
      if sent.None? { return None; }
      ghost var received, size := Received(bits), ByteCount(counter);
      FirstBytes(buffer[..], size);
      assert buffer[..][..size] == buffer[..size];
      if |received| <= 64 {
        WireToNumber(received, buffer[..size]);
      }
      CardTextAccepted(buffer[..size]);
      var card := MakeCard(sent.value.0, sent.value.1);
      raw := Some(ToRawInt(card.value));
      ReadReset();
    }

    /** Any sequence of bursts, each followed by silence, is decoded card by card, whatever the
        bursts before were. */
    method ReadCards(bursts: seq<seq<bool>>) returns (raws: seq<Option<Result<nat>>>)
      requires Valid() && counter == 0
      modifies this, buffer
      ensures Valid() && counter == 0
      ensures |raws| == |bursts| && forall i | 0 <= i < |bursts| :: Decodes(bursts[i], raws[i])
    {
      raws := [];
      for i := 0 to |bursts|
        invariant Valid() && counter == 0 && |raws| == i
        invariant forall k | 0 <= k < i :: Decodes(bursts[k], raws[k])
      {
        var raw := ReadCard(bursts[i]);
        raws := raws + [raw];
      }
    }

    static lemma {:induction false} FirstBytes(bs: seq<bv8>, k: nat)
      requires k <= |bs|
      ensures |BufferBits(bs[..k])| == 8 * k && BufferBits(bs[..k]) <= BufferBits(bs)
      decreases |bs| - k
    {
      BufferLength(bs[..k]);
      if k < |bs| {
        FirstBytes(bs, k + 1);
        assert bs[..k + 1][..k] == bs[..k];
      } else {
        assert bs[..k] == bs;
      }
    }
  }
}
