/** RFID cards: from the bits a reader receives, through the card text, to the number the rest
of the system uses; and the validator of card texts. */
module Cards {
  import opened PropertyTree

  predicate IsSpace(c: char) {
    c == ' ' || ('\t' <= c <= '\r')
  }

  predicate IsHex(c: char) {
    '0' <= c <= '9' || 'a' <= c <= 'f' || 'A' <= c <= 'F'
  }

  /** The characters that count as white space and as hexadecimal digits. */
  lemma CharClasses(c: char)
    ensures IsSpace(c) <==> c as int in {9, 10, 11, 12, 13, 32}
    ensures IsHex(c) <==> c in "0123456789abcdefABCDEF"
  {
    if c in "0123456789abcdefABCDEF" {}
    if '0' <= c <= '9' { assert "0123456789abcdefABCDEF"[c as int - '0' as int] == c; }
    if 'a' <= c <= 'f' { assert "0123456789abcdefABCDEF"[10 + (c as int - 'a' as int)] == c; }
    if 'A' <= c <= 'F' { assert "0123456789abcdefABCDEF"[16 + (c as int - 'A' as int)] == c; }
  }

  // ---- the validator ----

  /** `s` without white space. */
  function Strip(s: string): string {
    if s == "" then "" else if IsSpace(s[0]) then Strip(s[1..]) else [s[0]] + Strip(s[1..])
  }

  /** Every other character stays, in order. */
  lemma {:induction false} StripParts(a: string, b: string, c: char)
    ensures Strip(a + b) == Strip(a) + Strip(b)
    ensures Strip([c]) == if IsSpace(c) then "" else [c]
  {
    assert [c][1..] == "";
    if a == "" {
      assert a + b == b;
    } else {
      assert (a + b)[1..] == a[1..] + b;
      StripParts(a[1..], b, c);
    }
  }

  /** Two hexadecimal digits, then any number of times a colon and two more. */
  predicate CardFormat(s: string) {
    && |s| >= 2 && IsHex(s[0]) && IsHex(s[1])
    && (|s| == 2 || (s[2] == ':' && CardFormat(s[3..])))
  }

  /** Which character may stand at place `i` of a card text. */
  predicate Fits(i: nat, c: char) {
    if i % 3 == 2 then c == ':' else IsHex(c)
  }

  /** The same place by place. */
  lemma {:induction false} CardFormatIff(s: string)
    ensures CardFormat(s) <==> |s| % 3 == 2 && forall i | 0 <= i < |s| :: Fits(i, s[i])
  {
    if |s| >= 3 {
      CardFormatIff(s[3..]);
      PlacesShift(s);
      ThreeLess(|s|);
    } else if |s| == 2 {
      TwoPlaces(s);
    }
  }

  lemma ThreeLess(n: nat)
    requires n >= 3
    ensures (n - 3) % 3 == n % 3
  {
  }

  lemma TwoPlaces(s: string)
    requires |s| == 2
    ensures (forall i | 0 <= i < |s| :: Fits(i, s[i])) <==> IsHex(s[0]) && IsHex(s[1])
  {
    assert Fits(0, s[0]) <==> IsHex(s[0]);
    assert Fits(1, s[1]) <==> IsHex(s[1]);
  }

  lemma PlacesShift(s: string)
    requires |s| >= 3
    ensures (forall i | 0 <= i < |s| :: Fits(i, s[i])) <==>
            IsHex(s[0]) && IsHex(s[1]) && s[2] == ':' && forall i | 0 <= i < |s[3..]| :: Fits(i, s[3..][i])
  {
    if forall i | 0 <= i < |s| :: Fits(i, s[i]) {
      assert Fits(0, s[0]) && Fits(1, s[1]) && Fits(2, s[2]);
      forall i | 0 <= i < |s[3..]| ensures Fits(i, s[3..][i]) { assert Fits(i + 3, s[i + 3]); }
    }
    if IsHex(s[0]) && IsHex(s[1]) && s[2] == ':' && forall i | 0 <= i < |s[3..]| :: Fits(i, s[3..][i]) {
      forall i | 0 <= i < |s| ensures Fits(i, s[i]) {
        if i >= 3 { assert Fits(i - 3, s[3..][i - 3]); }
      }
    }
  }

  /** An input stream over a text; `good` is lost at the first read that finds nothing. */
  datatype Stream = Stream(text: string, pos: nat, good: bool)

  predicate Ready(st: Stream) {
    st.good && st.pos <= |st.text|
  }

  function SkipSpace(s: string, pos: nat): (p: nat)
    requires pos <= |s|
    ensures pos <= p <= |s|
    decreases |s| - pos
  {
    if pos < |s| && IsSpace(s[pos]) then SkipSpace(s, pos + 1) else pos
  }

  lemma {:induction false} SkipIsStrip(s: string, pos: nat)
    requires pos <= |s|
    ensures var p := SkipSpace(s, pos);
            && Strip(s[pos..]) == Strip(s[p..])
            && (p < |s| ==> !IsSpace(s[p]) && Strip(s[p..]) == [s[p]] + Strip(s[p + 1..]))
            && (p == |s| ==> Strip(s[p..]) == "")
    decreases |s| - pos
  {
    if pos < |s| {
      assert s[pos..][1..] == s[pos + 1..];
      if IsSpace(s[pos]) { SkipIsStrip(s, pos + 1); }
    }
  }

  /** Reads the next character that is not white space; a failed read leaves `c` alone. */
  function Extract(st: Stream, c: char): (r: (Stream, char))
    ensures Ready(st) && r.0.good ==> Ready(r.0) && st.pos < r.0.pos && r.0.text == st.text
  {
    if !Ready(st) then (st.(good := false), c)
    else
      var p := SkipSpace(st.text, st.pos);
      if p == |st.text| then (st.(pos := p, good := false), c)
      else (st.(pos := p + 1), st.text[p])
  }

  function Rest(st: Stream): string {
    if Ready(st) then Strip(st.text[st.pos..]) else ""
  }

  lemma ExtractReads(st: Stream, c: char)
    requires Ready(st)
    ensures var r := Extract(st, c);
            && (r.0.good <==> Rest(st) != "")
            && (r.0.good ==> Rest(st) == [r.1] + Rest(r.0))
  {
    SkipIsStrip(st.text, st.pos);
  }

  /** What is left to read, white space aside, is `t`. */
  ghost predicate StandsAt(st: Stream, t: string) {
    Ready(st) && Rest(st) == t
  }

  method Next(st: Stream, c: char, ghost t: string) returns (st': Stream, c': char)
    requires st.good ==> StandsAt(st, t)
    ensures st'.good <==> st.good && t != ""
    ensures st'.good ==> StandsAt(st', t[1..]) && c' == t[0] && st.pos < st'.pos && st'.text == st.text
  {
    if st.good { ExtractReads(st, c); }
    st', c' := Extract(st, c).0, Extract(st, c).1;
  }

  /** The first `n` characters are there and are hexadecimal digits. */
  ghost predicate HexUpTo(t: string, n: nat) {
    n <= |t| && AllHex(t[..n])
  }

  lemma HexOneMore(t: string, n: nat)
    requires n < |t|
    ensures HexUpTo(t, n + 1) <==> HexUpTo(t, n) && IsHex(t[n])
    ensures t[n..][0] == t[n] && t[n..][1..] == t[n + 1..]
  {
    assert t[..n + 1] == t[..n] + [t[n]];
  }

  lemma FormatFromDigits(t: string)
    ensures CardFormat(t) <==> HexUpTo(t, 2) && (|t| > 2 ==> t[2] == ':' && CardFormat(t[3..]))
  {
    if |t| >= 2 { assert t[..2] == [t[0], t[1]]; }
  }

  /** Throws, that is gives `false`, exactly for texts that are not of the card format once
      white space is left out. */
  method ValidateCardId(cardId: string) returns (ok: bool)
    ensures ok <==> CardFormat(Strip(cardId))
  {
    ghost var t := Strip(cardId);
    var fail, st := false, Stream(cardId, 0, true);
    assert cardId[0..] == cardId;
    while true
      invariant StandsAt(st, t) && st.text == cardId
      invariant CardFormat(Strip(cardId)) <==> !fail && CardFormat(t)
      decreases |cardId| - st.pos
    {
      var c, pos := 0 as char, st.pos;
      ghost var before := fail;
      FormatFromDigits(t);
      for i := 0 to 2
        invariant st.good <==> i <= |t|
        invariant st.good ==> StandsAt(st, t[i..]) && st.text == cardId && pos <= st.pos
        invariant fail <==> before || !HexUpTo(t, i)
      {
        if i < |t| { HexOneMore(t, i); }
        st, c := Next(st, c, if st.good then t[i..] else "");
        if !IsHex(c) || !st.good {
          fail := true;
        }
      }
      st, c := Next(st, c, if st.good then t[2..] else "");
      if !st.good {
        break;
      }
      if c != ':' {
        fail := true;
      }
      t := t[3..];
    }
    ok := !fail;
  }

  // ---- the numbers of a card ----

  datatype Card = Card(cardId: string, nbBits: int)

  function Pow2(n: nat): (p: nat)
    ensures p > 0
  {
    if n == 0 then 1 else 2 * Pow2(n - 1)
  }

  function DigitValue(c: char): (d: nat)
    requires IsHex(c)
    ensures d < 16
  {
    if '0' <= c <= '9' then c as int - '0' as int
    else if 'a' <= c <= 'f' then c as int - 'a' as int + 10
    else c as int - 'A' as int + 10
  }

  /** What each digit is worth, in either case. */
  lemma DigitMeaning(c: char)
    requires IsHex(c)
    ensures var d := DigitValue(c); "0123456789abcdef"[d] == c || "0123456789ABCDEF"[d] == c
  {
  }

  predicate AllHex(s: string) {
    forall i | 0 <= i < |s| :: IsHex(s[i])
  }

  function HexValue(s: string): nat
    requires AllHex(s)
  {
    if s == "" then 0 else 16 * HexValue(s[..|s| - 1]) + DigitValue(s[|s| - 1])
  }

  /** The lower-case letter for an upper-case one. */
  function Lower(c: char): char {
    if 'A' <= c <= 'Z' then c - 'A' + 'a' else c
  }

  function LowerText(s: string): string {
    seq(|s|, i requires 0 <= i < |s| => Lower(s[i]))
  }

  lemma {:induction false} CaseDoesNotMatter(s: string)
    requires AllHex(s)
    ensures AllHex(LowerText(s)) && HexValue(LowerText(s)) == HexValue(s)
  {
    if s != "" {
      CaseDoesNotMatter(s[..|s| - 1]);
      assert LowerText(s)[..|s| - 1] == LowerText(s[..|s| - 1]);
    }
  }

  function HexPrefix(s: string): (r: string)
    ensures AllHex(r)
  {
    if s == "" || !IsHex(s[0]) then "" else [s[0]] + HexPrefix(s[1..])
  }

  /** Reads a number in base 16: white space in front is skipped, reading stops at the first
      other character; nothing to read, or a value over 64 bits, throws. Signs and a `0x` in
      front cannot occur in a validated card text. */
  function StringToUnsigned(s: string): Result<uint64> {
    var digits := HexPrefix(s[SkipSpace(s, 0)..]);
    if digits == "" then Err
    else
      var v := HexValue(digits);
      if v < 0x1_0000_0000_0000_0000 then Ok(v) else Err
  }

  function RemoveColons(s: string): string {
    if s == "" then "" else (if s[0] == ':' then "" else [s[0]]) + RemoveColons(s[1..])
  }

  /** The remainder that goes with division towards zero. */
  function TruncatedRemainder(a: int, b: int): int
    requires b > 0
  {
    if a >= 0 then a % b else -((-a) % b)
  }

  function ShiftRight(v: nat, n: nat): nat {
    if n == 0 then v else ShiftRight(v / 2, n - 1)
  }

  /** Drops the bits that only fill up the last byte. Shifting by a negative amount is
      undefined and counts as a failure. */
  function DropFilling(v: uint64, nbBits: int): Result<nat> {
    var trailing := TruncatedRemainder(64 - nbBits, 8);
    if trailing < 0 then Err else Ok(ShiftRight(v, trailing))
  }

  /** The bits of the card as a number. */
  function ToRawInt(card: Card): Result<nat> {
    match StringToUnsigned(RemoveColons(card.cardId))
    case Ok(v) => DropFilling(v, card.nbBits)
    case Err => Err
  }

  /** The number without the parity bits for the two formats that are known. */
  function ToInt(card: Card): Result<nat> {
    var raw := ToRawInt(card);
    if raw.Err? then Err
    else if card.nbBits == 26 then Ok(raw.value / 2 % 0x1_0000)
    else if card.nbBits == 34 then Ok(raw.value / 2 % 0x100_0000)
    else raw
  }

  /** Both fields are validated when a card is made. */
  method MakeCard(cardId: string, nbBits: int) returns (r: Result<Card>)
    ensures r == if CardFormat(Strip(cardId)) && nbBits > 0 then Ok(Card(cardId, nbBits)) else Err
  {
    var ok := ValidateCardId(cardId);
    if !ok || nbBits <= 0 { return Err; }
    return Ok(Card(cardId, nbBits));
  }

  /** A card from a serial number alone: the bit count is taken as eight per digit. */
  method CreateSimpleCsn(cardId: string) returns (r: Result<Card>)
    ensures r == if |RemoveColons(cardId)| % 2 == 0 && CardFormat(Strip(cardId))
                 then Ok(Card(cardId, 8 * |RemoveColons(cardId)|)) else Err
  {
    var raw := RemoveColons(cardId);
    if |raw| % 2 != 0 { return Err; }
    r := MakeCard(cardId, 8 * |raw|);
    if CardFormat(Strip(cardId)) { StrippedHasDigits(cardId); }
  }

  lemma StrippedHasDigits(s: string)
    requires CardFormat(Strip(s))
    ensures |RemoveColons(s)| > 0
  {
    assert s[0] != ':';
  }

  // ---- texts without white space ----

  lemma StripTwo(s: string)
    requires |s| >= 2 && !IsSpace(s[0]) && !IsSpace(s[1])
    ensures Strip(s) == s[..2] + Strip(s[2..])
  {
    assert s[1..][1..] == s[2..];
  }

  lemma {:induction false} FormatHasNoSpace(s: string)
    requires CardFormat(s)
    ensures Strip(s) == s
  {
    StripTwo(s);
    if |s| == 2 {
      assert s[2..] == "" && s == s[..2];
    } else {
      FormatHasNoSpace(s[3..]);
      assert s[2..][1..] == s[3..] && s[2..][0] == ':';
      assert s == s[..2] + ([':'] + s[3..]);
    }
  }

  lemma RemoveColonsNext(c: char, rest: string)
    ensures RemoveColons([c] + rest) == (if c == ':' then "" else [c]) + RemoveColons(rest)
  {
    assert ([c] + rest)[1..] == rest;
  }

  lemma RemoveColonsTwo(a: char, b: char, rest: string)
    requires a != ':' && b != ':'
    ensures RemoveColons([a, b] + rest) == [a, b] + RemoveColons(rest)
  {
    RemoveColonsNext(b, rest);
    RemoveColonsNext(a, [b] + rest);
    assert [a, b] + rest == [a] + ([b] + rest);
    assert [a, b] + RemoveColons(rest) == [a] + ([b] + RemoveColons(rest));
  }

  lemma RemoveColonsLast(s: string)
    requires |s| == 2 && s[0] != ':' && s[1] != ':'
    ensures RemoveColons(s) == s
  {
    RemoveColonsTwo(s[0], s[1], "");
    assert s == [s[0], s[1]] + "";
  }

  lemma RemoveColonsFirst(a: char, b: char, rest: string)
    requires a != ':' && b != ':'
    ensures RemoveColons([a, b] + ([':'] + rest)) == [a, b] + RemoveColons(rest)
  {
    RemoveColonsNext(':', rest);
    RemoveColonsTwo(a, b, [':'] + rest);
  }

  lemma RemoveColonsByByte(s: string)
    requires |s| >= 2 && s[0] != ':' && s[1] != ':' && (|s| > 2 ==> s[2] == ':')
    ensures |s| == 2 ==> RemoveColons(s) == s
    ensures |s| > 2 ==> RemoveColons(s) == [s[0], s[1]] + RemoveColons(s[3..])
  {
    if |s| == 2 {
      RemoveColonsLast(s);
    } else {
      RemoveColonsFirst(s[0], s[1], s[3..]);
      assert s == [s[0], s[1]] + ([':'] + s[3..]);
    }
  }

  /** A text of card format has two digits per byte. */
  lemma {:induction false} FormatDigits(s: string)
    requires CardFormat(s)
    ensures AllHex(RemoveColons(s)) && |RemoveColons(s)| % 2 == 0
    ensures 3 * |RemoveColons(s)| == 2 * (|s| + 1)
  {
    RemoveColonsByByte(s);
    if |s| > 2 { FormatDigits(s[3..]); }
  }

  lemma {:induction false} HexPrefixSame(s: string)
    requires AllHex(s)
    ensures HexPrefix(s) == s
  {
    if s != "" {
      HexPrefixSame(s[1..]);
      assert s == [s[0]] + s[1..];
    }
  }

  lemma {:induction false} SkipsSpaces(a: string, rest: string, pos: nat)
    requires pos <= |a| && forall i | 0 <= i < |a| :: IsSpace(a[i])
    requires rest == "" || !IsSpace(rest[0])
    ensures SkipSpace(a + rest, pos) == |a|
    decreases |a| - pos
  {
    if pos < |a| {
      assert (a + rest)[pos] == a[pos];
      SkipsSpaces(a, rest, pos + 1);
    } else if rest != "" {
      assert (a + rest)[pos] == rest[0];
    }
  }

  lemma {:induction false} HexPrefixStops(digits: string, rest: string)
    requires AllHex(digits) && (rest == "" || !IsHex(rest[0]))
    ensures HexPrefix(digits + rest) == digits
  {
    if digits == "" {
      assert digits + rest == rest;
    } else {
      assert (digits + rest)[1..] == digits[1..] + rest;
      HexPrefixStops(digits[1..], rest);
      assert digits == [digits[0]] + digits[1..];
    }
  }

  /** How any text is read: white space, then digits up to the first other character; without
      digits, or with more than 64 bits, it throws. */
  lemma ReadsText(spaces: string, digits: string, rest: string)
    requires (forall i | 0 <= i < |spaces| :: IsSpace(spaces[i])) && AllHex(digits)
    requires rest == "" || !IsHex(rest[0])
    requires digits == "" && rest != "" ==> !IsSpace(rest[0])
    ensures StringToUnsigned(spaces + (digits + rest)) ==
            if digits != "" && HexValue(digits) < 0x1_0000_0000_0000_0000 then Ok(HexValue(digits)) else Err
  {
    var tail := digits + rest;
    if digits != "" { assert tail[0] == digits[0]; } else { assert tail == rest; }
    SkipsSpaces(spaces, tail, 0);
    assert (spaces + tail)[|spaces|..] == tail;
    HexPrefixStops(digits, rest);
  }

  lemma ReadsHex(s: string)
    requires AllHex(s) && s != ""
    ensures StringToUnsigned(s) == if HexValue(s) < 0x1_0000_0000_0000_0000 then Ok(HexValue(s)) else Err
  {
    assert SkipSpace(s, 0) == 0 && s[0..] == s;
    HexPrefixSame(s);
  }

  lemma {:induction false} HexBound(s: string)
    requires AllHex(s)
    ensures HexValue(s) < Pow2(4 * |s|)
  {
    if s != "" {
      HexBound(s[..|s| - 1]);
      Pow2Add(4 * |s| - 4, 4);
      assert Pow2(2) == 4 && Pow2(4) == 16;
    }
  }

  lemma {:induction false} Pow2Grows(m: nat, n: nat)
    requires m <= n
    ensures Pow2(m) <= Pow2(n)
  {
    if m < n { Pow2Grows(m, n - 1); }
  }

  lemma {:induction false} Pow2Add(m: nat, n: nat)
    ensures Pow2(m + n) == Pow2(m) * Pow2(n)
  {
    if n > 0 { Pow2Add(m, n - 1); }
  }

  lemma Pow64()
    ensures Pow2(16) == 0x1_0000 && Pow2(24) == 0x100_0000 && Pow2(64) == 0x1_0000_0000_0000_0000
  {
    assert Pow2(2) == 4 && Pow2(4) == 16;
    Pow2Add(4, 4);
    Pow2Add(8, 8);
    Pow2Add(16, 8);
    Pow2Add(16, 16);
    Pow2Add(32, 32);
  }

  lemma NoShift(m: nat)
    ensures TruncatedRemainder(64 - 8 * m, 8) == 0
  {
    if m <= 8 {
      assert 64 - 8 * m == 8 * (8 - m);
    } else {
      assert -(64 - 8 * m) == 8 * (m - 8);
    }
  }

  /** At most eight bytes fit 64 bits. */
  lemma DigitsOfFormat(cardId: string)
    requires CardFormat(cardId) && |cardId| <= 23
    ensures var raw := RemoveColons(cardId);
            raw != "" && AllHex(raw) && HexValue(raw) < 0x1_0000_0000_0000_0000
  {
    var raw := RemoveColons(cardId);
    FormatDigits(cardId);
    HexBound(raw);
    Pow2Grows(4 * |raw|, 64);
    Pow64();
  }

  /** What `ToRawInt` gives for hexadecimal digits: a failure exactly if they exceed 64 bits. */
  lemma RawOfHex(card: Card)
    requires AllHex(RemoveColons(card.cardId)) && RemoveColons(card.cardId) != ""
    ensures var v := HexValue(RemoveColons(card.cardId));
            ToRawInt(card) == if v < 0x1_0000_0000_0000_0000 then DropFilling(v, card.nbBits) else Err
  {
    ReadsHex(RemoveColons(card.cardId));
  }

  /** A serial number of at most eight bytes, written without white space, gives its plain
      hexadecimal value, although its bit count is computed as sixteen per byte. */
  lemma CsnIsPlainHex(cardId: string)
    requires CardFormat(cardId) && |cardId| <= 23
    ensures |RemoveColons(cardId)| % 2 == 0 && AllHex(RemoveColons(cardId))
    ensures var card := Card(cardId, 8 * |RemoveColons(cardId)|);
            && ToRawInt(card) == ToInt(card) == Ok(HexValue(RemoveColons(cardId)))
            && 3 * card.nbBits == 16 * (|cardId| + 1)
  {
    var card := Card(cardId, 8 * |RemoveColons(cardId)|);
    FormatDigits(cardId);
    DigitsOfFormat(cardId);
    CsnRaw(card);
    EvenIsPlain(|RemoveColons(cardId)|);
    PlainInt(card);
  }

  lemma EvenIsPlain(n: nat)
    requires n % 2 == 0
    ensures 8 * n != 26 && 8 * n != 34
  {
  }

  lemma CsnRaw(card: Card)
    requires var raw := RemoveColons(card.cardId);
             AllHex(raw) && raw != "" && HexValue(raw) < 0x1_0000_0000_0000_0000 && card.nbBits == 8 * |raw|
    ensures ToRawInt(card) == Ok(HexValue(RemoveColons(card.cardId)))
  {
    NoShift(|RemoveColons(card.cardId)|);
    RawOfHex(card);
  }

  /** Only the two known formats drop bits. */
  lemma PlainInt(card: Card)
    requires card.nbBits != 26 && card.nbBits != 34
    ensures ToInt(card) == ToRawInt(card)
  {
  }

  lemma {:induction false} ShiftIsDivision(v: nat, n: nat)
    ensures ShiftRight(v, n) == v / Pow2(n)
  {
    if n > 0 {
      ShiftIsDivision(v / 2, n - 1);
      HalvedFirst(v, Pow2(n - 1));
    }
  }

  lemma HalvedFirst(v: nat, p: nat)
    requires p > 0
    ensures v / 2 / p == v / (2 * p)
  {
    var q, r := v / 2 / p, v / 2 % p;
    assert v / 2 == q * p + r && r <= p - 1;
    assert v == 2 * (v / 2) + v % 2 && v % 2 <= 1;
    TwiceProduct(q, p);
    assert v == q * (2 * p) + (2 * r + v % 2) && 2 * r + v % 2 < 2 * p;
    UniqueQuotient(v, 2 * p, q, 2 * r + v % 2);
  }

  lemma TwiceProduct(q: int, p: int)
    ensures q * (2 * p) == 2 * (q * p)
  {
  }

  lemma UniqueQuotient(x: int, d: int, q: int, r: int)
    requires d > 0 && 0 <= r < d && x == q * d + r
    ensures x / d == q
  {
    var k := x / d - q;
    assert x == (x / d) * d + x % d;
    SpreadProduct(q, k, d);
    assert k * d == r - x % d;
    if k >= 1 { PositiveProduct(k, d); }
    if k <= -1 { PositiveProduct(-k, d); }
  }

  lemma SpreadProduct(q: int, k: int, d: int)
    ensures (q + k) * d == q * d + k * d
    ensures (-k) * d == -(k * d)
  {
  }

  lemma PositiveProduct(k: int, d: int)
    requires k >= 1 && d > 0
    ensures k * d >= d
  {
  }

  /** How many bits are dropped for every bit count: those that fill up the last byte, up to 64
      bits; none for more than 64 in whole bytes; and otherwise it fails. */
  lemma FillingMeaning(v: uint64, nbBits: int)
    requires nbBits > 0
    ensures DropFilling(v, nbBits) ==
            if nbBits <= 64 then Ok(v / Pow2((64 - nbBits) % 8)) else if nbBits % 8 == 0 then Ok(v) else Err
  {
    if nbBits <= 64 {
      ShiftIsDivision(v, (64 - nbBits) % 8);
    } else {
      assert (nbBits - 64) % 8 == nbBits % 8;
    }
  }
}
