/** Base58: byte strings as strings over 58 characters and back. */
module Base58s {
  import opened Arithmetic
  import opened Sequences
  import opened Transactions

  // ---------------------------------------------------------------- numerals

  type Digits = seq<nat>

  predicate AreDigits(s: Digits, base: nat) {
    forall i | 0 <= i < |s| :: s[i] < base
  }

  /** The number that big-endian digits stand for. */
  function Number(s: Digits, base: nat): nat {
    if s == [] then 0 else Number(s[..|s| - 1], base) * base + s[|s| - 1]
  }

  /** The shortest big-endian digits of a number; none for zero. */
  function DigitsOf(n: nat, base: nat): (s: Digits)
    requires base > 1
    ensures AreDigits(s, base)
    ensures n > 0 <==> s != []
    ensures s != [] ==> s[0] != 0
    decreases n
  {
    if n == 0 then []
    else
      QuotientSmaller(n, base);
      DigitsOf(n / base, base) + [n % base]
  }

  lemma QuotientSmaller(n: nat, base: nat)
    requires n > 0 && base > 1
    ensures 0 <= n / base < n && 0 <= n % base < base && n == n / base * base + n % base
    ensures n < base ==> n / base == 0 && n % base == n
  {
    var q := n / base;
    assert n == base * q + n % base;
    AtLeastTwice(base, q);
    if n < base {
      QuotientIs(n, base, 0, n);
    }
  }

  lemma {:induction false} NumberOfDigits(n: nat, base: nat)
    requires base > 1
    ensures Number(DigitsOf(n, base), base) == n
    decreases n
  {
    if n > 0 {
      QuotientSmaller(n, base);
      NumberOfDigits(n / base, base);
      var s := DigitsOf(n, base);
      assert s[..|s| - 1] == DigitsOf(n / base, base);
    }
  }

  function LeadingZeros(s: Digits): (z: nat)
    ensures z <= |s|
    ensures forall i | 0 <= i < z :: s[i] == 0
    ensures z < |s| ==> s[z] != 0
  {
    if s == [] || s[0] != 0 then 0 else 1 + LeadingZeros(s[1..])
  }

  function Zeros(z: nat): (s: Digits)
    ensures |s| == z && forall i | 0 <= i < z :: s[i] == 0
  {
    seq(z, _ => 0)
  }

  lemma {:induction false} NumberPositive(s: Digits, base: nat)
    requires base > 1 && s != [] && s[0] != 0
    ensures Number(s, base) > 0
    decreases |s|
  {
    if |s| > 1 {
      NumberPositive(s[..|s| - 1], base);
      assert Number(s[..|s| - 1], base) * base >= 1;
    }
  }

  /** Digits without a leading zero are the digits of their number. */
  lemma {:induction false} DigitsOfNumber(s: Digits, base: nat)
    requires base > 1 && AreDigits(s, base) && (s == [] || s[0] != 0)
    ensures DigitsOf(Number(s, base), base) == s
    decreases |s|
  {
    if s != [] {
      var init, last := s[..|s| - 1], s[|s| - 1];
      DigitsOfNumber(init, base);
      NumberPositive(s, base);
      LastDigit(Number(init, base), last, base);
      assert s == init + [last];
    }
  }

  lemma LastDigit(q: nat, r: nat, base: nat)
    requires r < base
    ensures (q * base + r) / base == q && (q * base + r) % base == r
  {
    QuotientIs(q * base + r, base, q, r);
    RemainderIs(q * base + r, base, q, r);
  }

  /** Leading zeros do not count. */
  lemma {:induction false} ZerosAreNothing(z: nat, s: Digits, base: nat)
    ensures Number(Zeros(z) + s, base) == Number(s, base)
    decreases |s|, z
  {
    var t := Zeros(z) + s;
    if s == [] {
      if z > 0 {
        assert t[..|t| - 1] == Zeros(z - 1) + [];
        ZerosAreNothing(z - 1, [], base);
      }
    } else {
      assert t[..|t| - 1] == Zeros(z) + s[..|s| - 1];
      ZerosAreNothing(z, s[..|s| - 1], base);
    }
  }

  // ---------------------------------------------------------------- changing the base

  /** As many zeros in front as before, then the shortest digits in the other base. */
  function Convert(s: Digits, base: nat, other: nat): (t: Digits)
    requires other > 1
    ensures AreDigits(t, other)
  {
    Zeros(LeadingZeros(s)) + DigitsOf(Number(s, base), other)
  }

  lemma {:induction false} LeadingZerosOf(z: nat, s: Digits)
    requires s == [] || s[0] != 0
    ensures LeadingZeros(Zeros(z) + s) == z
    decreases z
  {
    if z == 0 {
      assert Zeros(0) + s == s;
    } else {
      LeadingZerosOf(z - 1, s);
      assert (Zeros(z) + s)[1..] == Zeros(z - 1) + s;
    }
  }

  /** Changing the base and changing it back gives the same digits. */
  lemma ConvertBack(s: Digits, base: nat, other: nat)
    requires base > 1 && other > 1 && AreDigits(s, base)
    ensures Convert(Convert(s, base, other), other, base) == s
  {
    var z := LeadingZeros(s);
    var rest := s[z..];
    assert s == Zeros(z) + rest;
    ZerosAreNothing(z, rest, base);
    DigitsOfNumber(rest, base);
    var middle := DigitsOf(Number(s, base), other);
    ZerosAreNothing(z, middle, other);
    NumberOfDigits(Number(s, base), other);
    LeadingZerosOf(z, middle);
  }

  // ---------------------------------------------------------------- the alphabet

  const DIGITS: string := "123456789"
  const A_TO_H: string := "ABCDEFGH"
  const J_TO_N: string := "JKLMN"
  const P_TO_Z: string := "PQRSTUVWXYZ"
  const LOWER_A_TO_K: string := "abcdefghijk"
  const LOWER_M_TO_Z: string := "mnopqrstuvwxyz"
  const BASE58: string := DIGITS + A_TO_H + J_TO_N + P_TO_Z + LOWER_A_TO_K + LOWER_M_TO_Z

  /** The character for a digit: six runs of consecutive letters. */
  function CharOf(d: nat): char
    requires d < 58
  {
    if d < 9 then (d + 49) as char
    else if d < 17 then (d + 56) as char
    else if d < 22 then (d + 57) as char
    else if d < 33 then (d + 58) as char
    else if d < 44 then (d + 64) as char
    else (d + 65) as char
  }

  /** What strchr finds: the digit of a character, or -1. */
  function DigitOf(c: char): (d: int)
    ensures -1 <= d < 58
    ensures d >= 0 ==> CharOf(d) == c
  {
    var x := c as int;
    if 49 <= x < 58 then x - 49
    else if 65 <= x < 73 then x - 56
    else if 74 <= x < 79 then x - 57
    else if 80 <= x < 91 then x - 58
    else if 97 <= x < 108 then x - 64
    else if 109 <= x < 123 then x - 65
    else -1
  }

  lemma DigitOfChar(d: nat)
    requires d < 58
    ensures DigitOf(CharOf(d)) == d
  {
  }

  /** The alphabet of the program lists these characters in order. */
  lemma AlphabetInOrder(d: nat)
    requires d < 58
    ensures |BASE58| == 58 && BASE58[d] == CharOf(d)
  {
    if d < 9 {
      assert DIGITS[d] == CharOf(d);
    } else if d < 17 {
      assert A_TO_H[d - 9] == CharOf(d);
    } else if d < 22 {
      assert J_TO_N[d - 17] == CharOf(d);
    } else if d < 33 {
      assert P_TO_Z[d - 22] == CharOf(d);
    } else if d < 44 {
      assert LOWER_A_TO_K[d - 33] == CharOf(d);
    } else {
      assert LOWER_M_TO_Z[d - 44] == CharOf(d);
    }
  }

  function CharsOf(s: Digits): string
    requires AreDigits(s, 58)
  {
    seq(|s|, i requires 0 <= i < |s| => CharOf(s[i]))
  }

  predicate IsBase58(str: string) {
    forall i | 0 <= i < |str| :: DigitOf(str[i]) >= 0
  }

  function DigitsIn(str: string): (s: Digits)
    requires IsBase58(str)
    ensures AreDigits(s, 58)
  {
    seq(|str|, i requires 0 <= i < |str| => DigitOf(str[i]))
  }

  lemma CharsRoundTrip(s: Digits)
    requires AreDigits(s, 58)
    ensures IsBase58(CharsOf(s)) && DigitsIn(CharsOf(s)) == s
  {
    forall i | 0 <= i < |s|
      ensures DigitOf(CharsOf(s)[i]) == s[i]
    {
      DigitOfChar(s[i]);
    }
  }

  lemma DigitsRoundTrip(str: string)
    requires IsBase58(str)
    ensures CharsOf(DigitsIn(str)) == str
  {
  }

  function AsDigits(b: seq<Byte>): (s: Digits)
    ensures AreDigits(s, 256)
  {
    seq(|b|, i requires 0 <= i < |b| => b[i] as int)
  }

  function AsBytes(s: Digits): seq<Byte>
    requires AreDigits(s, 256)
  {
    seq(|s|, i requires 0 <= i < |s| => s[i] as Byte)
  }

  // ---------------------------------------------------------------- what the two functions compute

  function Encoded(b: seq<Byte>): string {
    CharsOf(Convert(AsDigits(b), 256, 58))
  }

  function Decoded(str: string): seq<Byte>
    requires IsBase58(str)
  {
    AsBytes(Convert(DigitsIn(str), 58, 256))
  }

  /** Decoding an encoding gives the bytes back. */
  lemma DecodeEncoded(b: seq<Byte>)
    ensures IsBase58(Encoded(b)) && Decoded(Encoded(b)) == b
  {
    CharsRoundTrip(Convert(AsDigits(b), 256, 58));
    ConvertBack(AsDigits(b), 256, 58);
    assert AsBytes(AsDigits(b)) == b;
  }

  /** Encoding a decoding gives the string back. */
  lemma EncodeDecoded(str: string)
    requires IsBase58(str)
    ensures Encoded(Decoded(str)) == str
  {
    assert AsDigits(Decoded(str)) == Convert(DigitsIn(str), 58, 256);
    ConvertBack(DigitsIn(str), 58, 256);
    DigitsRoundTrip(str);
  }

  // ---------------------------------------------------------------- big numbers as bytes

  /** setvch: little-endian bytes whose top bit is the sign. */
  function SetVch(vch: seq<Byte>): int {
    var d := AsDigits(Reversed(vch));
    if d == [] then 0
    else if d[0] >= 0x80 then
      var m: int := Number(d[0 := d[0] - 0x80], 256);
      -m
    else Number(d, 256)
  }

  /** The digits of a magnitude, with a zero in front when its top bit would read as a sign. */
  function Magnitude(n: nat): (d: Digits)
    ensures AreDigits(d, 256) && (d != [] ==> d[0] < 0x80)
    ensures n > 0 ==> d != []
  {
    var d := DigitsOf(n, 256);
    if d != [] && d[0] >= 0x80 then [0] + d else d
  }

  /** getvch. */
  function GetVch(n: int): seq<Byte> {
    if n >= 0 then Reversed(AsBytes(Magnitude(n)))
    else
      var d := Magnitude(-n);
      Reversed(AsBytes(d[0 := d[0] + 0x80]))
  }

  lemma MagnitudeIs(n: nat)
    ensures Number(Magnitude(n), 256) == n
  {
    NumberOfDigits(n, 256);
    var d := DigitsOf(n, 256);
    assert Zeros(1) == [0];
    ZerosAreNothing(1, d, 256);
  }

  /** Every number survives the way through bytes. */
  lemma BytesOfNumber(n: int)
    ensures SetVch(GetVch(n)) == n
  {
    var m := if n >= 0 then n else -n;
    MagnitudeIs(m);
    var d := Magnitude(m);
    if n >= 0 {
      assert AsDigits(Reversed(GetVch(n))) == d;
    } else {
      assert AsDigits(Reversed(GetVch(n))) == d[0 := d[0] + 0x80];
      assert d[0 := d[0] + 0x80][0 := d[0]] == d;
    }
  }

  /** Trimming a sign byte leaves exactly the shortest digits. */
  lemma TrimmedIs(n: nat)
    ensures var v := GetVch(n);
      var t := if |v| >= 2 && v[|v| - 1] == 0 && v[|v| - 2] >= 0x80 then v[..|v| - 1] else v;
      Reversed(t) == AsBytes(DigitsOf(n, 256))
  {
    var d := DigitsOf(n, 256);
    var v := GetVch(n);
    if d != [] && d[0] >= 0x80 {
      assert v[|v| - 1] == 0 && v[|v| - 2] == d[0] as Byte;
      assert Reversed(v[..|v| - 1]) == AsBytes(d);
    } else {
      assert d != [] ==> v[|v| - 1] == d[0] as Byte;
      assert Reversed(v) == AsBytes(d);
    }
  }

  // ---------------------------------------------------------------- encoding

  method Encode(b: seq<Byte>) returns (str: string)
    ensures str == Encoded(b)
  {
    hide DigitsOf, SetVch, Number, CharsOf, CharOf, Encoded, EncodedSoFar, AsDigits;
    var vchTmp := Reversed(b) + [0];
    BytesAreNumber(b);
    var bn := SetVch(vchTmp);
    ghost var n: nat := bn;
    ghost var digits: Digits := [];
    str := "";
    NothingEncoded(n);
    while bn > 0
      invariant bn >= 0 && EncodedSoFar(n, bn, str, digits)
    {
      EncodeStep(n, bn, str, digits);
      var rem := bn % 58;
      bn := bn / 58;
      str := str + [BASE58[rem]];
      digits := [rem] + digits;
    }
    var p := 0;
    ghost var low := str;
    NoChars(low);
    while p < |b| && b[p] == 0
      invariant p <= |b| && forall i | 0 <= i < p :: b[i] == 0
      invariant str == low + CharsOf(Zeros(p))
    {
      OneMoreOne(low, p);
      str := str + [BASE58[0]];
      p := p + 1;
    }
    EncodingEnds(b, n, low, digits, p);
    str := Reversed(str);
  }

  /** `str` holds the last digits of `n`, reversed, and `bn` is what is left of it. */
  predicate EncodedSoFar(n: nat, bn: nat, str: string, digits: Digits) {
    AreDigits(digits, 58) && DigitsOf(n, 58) == DigitsOf(bn, 58) + digits && Reversed(str) == CharsOf(digits)
  }

  lemma NothingEncoded(n: nat)
    ensures EncodedSoFar(n, n, "", [])
  {
    hide DigitsOf;
  }

  lemma EncodeStep(n: nat, bn: nat, str: string, digits: Digits)
    requires bn > 0 && EncodedSoFar(n, bn, str, digits)
    ensures bn % 58 < |BASE58| && bn / 58 < bn
    ensures EncodedSoFar(n, bn / 58, str + [BASE58[bn % 58]], [bn % 58] + digits)
  {
    hide DigitsOf, CharsOf, CharOf;
    NextDigit(bn, 58);
    AlphabetInOrder(bn % 58);
    CharInFront(str, digits, bn % 58);
  }

  lemma NoChars(low: string)
    ensures low == low + CharsOf(Zeros(0))
  {
  }

  lemma OneMoreOne(low: string, p: nat)
    ensures 0 < |BASE58|
    ensures low + CharsOf(Zeros(p)) + [BASE58[0]] == low + CharsOf(Zeros(p + 1))
  {
    hide CharOf;
    AlphabetInOrder(0);
  }

  lemma EncodingEnds(b: seq<Byte>, n: nat, low: string, digits: Digits, p: nat)
    requires n == Number(AsDigits(b), 256) && EncodedSoFar(n, 0, low, digits)
    requires p <= |b| && (forall i | 0 <= i < p :: b[i] == 0) && (p < |b| ==> b[p] != 0)
    ensures Reversed(low + CharsOf(Zeros(p))) == Encoded(b)
  {
    hide Number, CharsOf, Encoded;
    NextDigit(0, 58);
    assert [] + digits == digits;
    ZerosInFront(low, digits, p);
    EncodedParts(b, n, p);
  }

  lemma EncodedParts(b: seq<Byte>, n: nat, p: nat)
    requires n == Number(AsDigits(b), 256)
    requires p <= |b| && (forall i | 0 <= i < p :: b[i] == 0) && (p < |b| ==> b[p] != 0)
    ensures AreDigits(Zeros(p) + DigitsOf(n, 58), 58)
    ensures Encoded(b) == CharsOf(Zeros(p) + DigitsOf(n, 58))
  {
    hide Number, DigitsOf, CharsOf;
    FirstNonZero(AsDigits(b), p);
  }

  lemma CharInFront(str: string, digits: Digits, d: nat)
    requires d < 58 && AreDigits(digits, 58) && Reversed(str) == CharsOf(digits)
    ensures Reversed(str + [CharOf(d)]) == CharsOf([d] + digits)
  {
    assert Reversed(str + [CharOf(d)]) == [CharOf(d)] + Reversed(str);
  }

  lemma ZerosInFront(str: string, digits: Digits, z: nat)
    requires AreDigits(digits, 58) && Reversed(str) == CharsOf(digits)
    ensures Reversed(str + CharsOf(Zeros(z))) == CharsOf(Zeros(z) + digits)
  {
    var r := Reversed(str + CharsOf(Zeros(z)));
    forall i | 0 <= i < |r|
      ensures r[i] == CharsOf(Zeros(z) + digits)[i]
    {
      if i >= z {
        assert r[i] == Reversed(str)[i - z];
      }
    }
  }

  lemma NextDigit(n: nat, base: nat)
    requires base > 1
    ensures DigitsOf(n, base) == if n == 0 then [] else DigitsOf(n / base, base) + [n % base]
  {
  }

  lemma {:induction false} FirstNonZero(s: Digits, p: nat)
    requires p <= |s| && (forall i | 0 <= i < p :: s[i] == 0) && (p < |s| ==> s[p] != 0)
    ensures LeadingZeros(s) == p
    decreases p
  {
    if p > 0 {
      FirstNonZero(s[1..], p - 1);
    }
  }

  /** A zero byte on top makes any bytes a non-negative number. */
  lemma BytesAreNumber(b: seq<Byte>)
    ensures SetVch(Reversed(b) + [0]) == Number(AsDigits(b), 256)
  {
    assert AsDigits(Reversed(Reversed(b) + [0])) == Zeros(1) + AsDigits(b);
    ZerosAreNothing(1, AsDigits(b), 256);
  }

  // ---------------------------------------------------------------- decoding

  predicate IsSpace(c: char) {
    c as int == 32 || 9 <= c as int <= 13
  }

  /** Blank, tab, line feed, vertical tab, form feed and carriage return. */
  lemma SpacesAre(c: char)
    ensures IsSpace(c) <==> c in {' ', '\t', '\n', 11 as char, 12 as char, '\r'}
  {
  }

  /** Where the spaces from `i` on end. */
  function SkipSpaces(psz: string, i: nat): (j: nat)
    requires i <= |psz|
    ensures i <= j <= |psz| && (forall k | i <= k < j :: IsSpace(psz[k])) && (j < |psz| ==> !IsSpace(psz[j]))
    decreases |psz| - i
  {
    if i < |psz| && IsSpace(psz[i]) then SkipSpaces(psz, i + 1) else i
  }

  /** Where the Base58 characters from `i` on end. */
  function RunEnd(psz: string, i: nat): (j: nat)
    requires i <= |psz|
    ensures i <= j <= |psz| && IsBase58(psz[i..j]) && (j < |psz| ==> DigitOf(psz[j]) < 0)
    decreases |psz| - i
  {
    if i < |psz| && DigitOf(psz[i]) >= 0 then RunEnd(psz, i + 1) else i
  }

  /** Spaces may stand around the characters, but nothing else, and nothing between them. */
  predicate Decodable(psz: string) {
    SkipSpaces(psz, RunEnd(psz, SkipSpaces(psz, 0))) == |psz|
  }

  function Body(psz: string): (body: string)
    ensures IsBase58(body)
  {
    var start := SkipSpaces(psz, 0);
    psz[start..RunEnd(psz, start)]
  }

  method Decode(psz: string) returns (ok: bool, vchRet: seq<Byte>)
    ensures ok <==> Decodable(psz)
    ensures vchRet == if ok then Decoded(Body(psz)) else []
  {
    hide Number, DigitsOf, GetVch, DigitOf, RunEnd, SkipSpaces, Convert, Decoded, DigitsIn, LeadingZeros, AsBytes;
    vchRet := [];
    var start := Skip(psz, 0);
    var bn, end;
    ok, bn, end := ReadNumber(psz, start);
    if !ok {
      return;
    }
    var vchTmp := GetVch(bn);
    TrimmedIs(bn);
    if |vchTmp| >= 2 && vchTmp[|vchTmp| - 1] == 0 && vchTmp[|vchTmp| - 2] >= 0x80 {
      vchTmp := vchTmp[..|vchTmp| - 1];
    }
    var nLeadingZeros := CountZeros(psz, start, end);
    vchRet := AsBytes(Zeros(nLeadingZeros)) + Reversed(vchTmp);
    DecodedParts(psz[start..end], bn);
  }

  lemma DecodedParts(body: string, bn: nat)
    requires IsBase58(body) && bn == Number(DigitsIn(body), 58)
    ensures AreDigits(DigitsOf(bn, 256), 256) && AreDigits(Zeros(LeadingZeros(DigitsIn(body))), 256)
    ensures Decoded(body) == AsBytes(Zeros(LeadingZeros(DigitsIn(body)))) + AsBytes(DigitsOf(bn, 256))
  {
    hide Number, DigitsOf, LeadingZeros, DigitsIn;
  }

  /** The loop over the characters. */
  method ReadNumber(psz: string, start: nat) returns (ok: bool, bn: nat, p: nat)
    requires start <= |psz|
    ensures ok <==> SkipSpaces(psz, RunEnd(psz, start)) == |psz|
    ensures ok ==> p == RunEnd(psz, start) && bn == Number(DigitsIn(psz[start..p]), 58)
  {
    hide Number, DigitOf;
    p, bn := start, 0;
    NumberOfNothing(58);
    assert DigitsIn(psz[start..start]) == [];
    while p < |psz|
      invariant start <= p <= |psz| && IsBase58(psz[start..p])
      invariant RunEnd(psz, start) == RunEnd(psz, p)
      invariant bn == Number(DigitsIn(psz[start..p]), 58)
    {
      var d := DigitOf(psz[p]);
      if d < 0 {
        var q := Skip(psz, p);
        return q >= |psz|, bn, p;
      }
      OneMoreDigit(psz[start..p], psz[p]);
      assert psz[start..p + 1] == psz[start..p] + [psz[p]];
      bn := bn * 58 + d;
      p := p + 1;
    }
    ok := true;
  }

  method Skip(psz: string, i: nat) returns (j: nat)
    requires i <= |psz|
    ensures j == SkipSpaces(psz, i)
  {
    j := i;
    while j < |psz| && IsSpace(psz[j])
      invariant i <= j <= |psz| && SkipSpaces(psz, i) == SkipSpaces(psz, j)
    {
      j := j + 1;
    }
  }

  /** Counts the leading '1's from `start`; they all belong to the run that ends at `end`. */
  method CountZeros(psz: string, start: nat, end: nat) returns (n: nat)
    requires start <= end <= |psz| && IsBase58(psz[start..end]) && end == RunEnd(psz, start)
    ensures n == LeadingZeros(DigitsIn(psz[start..end]))
  {
    n := 0;
    AlphabetInOrder(0);
    ghost var s := DigitsIn(psz[start..end]);
    while start + n < |psz| && psz[start + n] == BASE58[0]
      invariant n <= |s| && forall i | 0 <= i < n :: s[i] == 0
    {
      DigitOfChar(0);
      n := n + 1;
    }
    DigitOfChar(0);
    FirstNonZero(s, n);
  }

  lemma NumberOfNothing(base: nat)
    ensures Number([], base) == 0
  {
  }

  lemma OneMoreDigit(str: string, c: char)
    requires IsBase58(str) && DigitOf(c) >= 0
    ensures IsBase58(str + [c]) && Number(DigitsIn(str + [c]), 58) == Number(DigitsIn(str), 58) * 58 + DigitOf(c)
  {
    var s := DigitsIn(str + [c]);
    assert s[..|s| - 1] == DigitsIn(str);
  }

  /** Any bytes come back from their encoding, whatever spaces stand around it. */
  method RoundTrip(b: seq<Byte>, before: string, after: string) returns (ok: bool, vch: seq<Byte>)
    requires (forall i | 0 <= i < |before| :: IsSpace(before[i])) && (forall i | 0 <= i < |after| :: IsSpace(after[i]))
    ensures ok && vch == b
  {
    var str := Encode(b);
    DecodeEncoded(b);
    SpacesAround(before, str, after);
    ok, vch := Decode(before + str + after);
  }

  lemma SpaceIsNoDigit(c: char)
    ensures IsSpace(c) ==> DigitOf(c) < 0
  {
  }

  lemma SpacesAround(before: string, str: string, after: string)
    requires IsBase58(str)
    requires (forall i | 0 <= i < |before| :: IsSpace(before[i])) && (forall i | 0 <= i < |after| :: IsSpace(after[i]))
    ensures Decodable(before + str + after)
    ensures Body(before + str + after) == str
  {
    hide DigitOf, IsSpace;
    var psz := before + str + after;
    forall k | 0 <= k < |psz|
      ensures IsSpace(psz[k]) ==> DigitOf(psz[k]) < 0
    {
      SpaceIsNoDigit(psz[k]);
    }
    var start := SkipSpaces(psz, 0);
    var end := RunEnd(psz, start);
    if str == "" {
      assert forall k | 0 <= k < |psz| :: IsSpace(psz[k]);
    } else {
      assert psz[|before|] == str[0] && DigitOf(str[0]) >= 0;
      assert start == |before|;
      assert forall k | |before| <= k < |before| + |str| :: psz[k] == str[k - |before|];
      forall k | start <= k < end
        ensures DigitOf(psz[k]) >= 0
      {
        assert psz[start..end][k - start] == psz[k];
      }
      assert |after| > 0 ==> psz[|before| + |str|] == after[0] && DigitOf(after[0]) < 0;
      assert end == |before| + |str|;
      assert psz[start..end] == str;
    }
  }
}
