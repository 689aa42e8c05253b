/** Base58 encoding and decoding. */
module Base58 {
  import opened Nonlinear
  import opened Options
  import opened Radix

  /** The alphabet: digits, capitals and small letters in order, without 0, I, O and l. */
  function Letter(d: nat): (c: char)
    requires d < 58
    ensures Digit(c) == d
  {
    if d < 9 then ('1' as int + d) as char
    else if d < 17 then ('A' as int + d - 9) as char
    else if d < 22 then ('J' as int + d - 17) as char
    else if d < 33 then ('P' as int + d - 22) as char
    else if d < 44 then ('a' as int + d - 33) as char
    else ('m' as int + d - 44) as char
  }

  /** The value of a character, or -1. */
  function Digit(c: char): (d: int)
    ensures -1 <= d < 58
  {
    if '1' <= c <= '9' then c as int - '1' as int
    else if 'A' <= c <= 'H' then c as int - 'A' as int + 9
    else if 'J' <= c <= 'N' then c as int - 'J' as int + 17
    else if 'P' <= c <= 'Z' then c as int - 'P' as int + 22
    else if 'a' <= c <= 'k' then c as int - 'a' as int + 33
    else if 'm' <= c <= 'z' then c as int - 'm' as int + 44
    else -1
  }

  /** The letters are the digits and letters but 0, O, I and l, and their values follow their order. */
  lemma Alphabet(c: char, d: char)
    ensures Digit(c) >= 0 <==>
            ('0' <= c <= '9' || 'A' <= c <= 'Z' || 'a' <= c <= 'z') && c != '0' && c != 'O' && c != 'I' && c != 'l'
    ensures Digit(c) >= 0 && Digit(d) >= 0 ==> (c < d <==> Digit(c) < Digit(d))
  {
  }

  lemma LetterOfDigit(c: char)
    requires Digit(c) >= 0
    ensures Letter(Digit(c)) == c
  {
  }

  predicate IsSpace(c: char) {
    c == ' ' || c == '\n' || c == '\r' || c == '\t' || c == 11 as char || c == 12 as char
  }

  // ---------------------------------------------------------------- the buffer sizes

  function EncodedSize(n: nat): nat {
    n * 138 / 100 + 1
  }

  function DecodedSize(n: nat): nat {
    n * 733 / 1000 + 1
  }

  lemma SmallPowers()
    ensures Pow(256, 0) == 1 && Pow(256, 1) == 256 && Pow(256, 2) == 65536 && Pow(256, 3) == 16777216
    ensures Pow(256, 4) == 4294967296 && Pow(256, 5) == 1099511627776 && Pow(256, 6) == 281474976710656
    ensures Pow(256, 7) == 72057594037927936 && Pow(256, 8) == 18446744073709551616
    ensures Pow(58, 1) == 58 && Pow(58, 2) == 3364 && Pow(58, 3) == 195112 && Pow(58, 5) == 656356768
    ensures Pow(58, 6) == 38068692544 && Pow(58, 7) == 2207984167552
    ensures Pow(58, 9) == 7427658739644928 && Pow(58, 10) == 430804206899405824
    ensures Pow(58, 11) == 24986644000165537792
  {
  }

  /** 138/100 of the bytes, plus one, is enough room for the base-58 digits. */
  lemma {:induction false} EncodedFits(n: nat)
    ensures Pow(256, n) <= Pow(58, EncodedSize(n))
  {
    hide Pow;
    SmallPowers();
    if n >= 8 {
      EncodedFits(n - 8);
      PowAdd(256, 8, n - 8);
      PowAdd(58, 11, EncodedSize(n - 8));
      Products(Pow(256, 8), Pow(58, 11), Pow(256, n - 8), Pow(58, EncodedSize(n - 8)));
      PowLess(58, 11 + EncodedSize(n - 8), EncodedSize(n));
    }
  }

  lemma Products(a: nat, b: nat, c: nat, d: nat)
    requires a <= b && c <= d
    ensures a * c <= b * d
  {
    MulMono(a, b, c);
    MulMono(c, d, b);
  }

  lemma SomePowers()
    ensures Pow(58, 4) == 11316496 && Pow(58, 8) == 128063081718016
    ensures Pow(58, 12) == 1449225352009601191936 && Pow(58, 13) == 84055070416556869132288
    ensures Pow(58, 14) == 4875194084160298409672704 && Pow(58, 15) == 282761256881297307761016832
    ensures Pow(256, 9) == 4722366482869645213696 && Pow(256, 10) == 1208925819614629174706176
    ensures Pow(256, 11) == 309485009821345068724781056
  {
    SmallPowers();
  }

  /** 58^71 is just below 256^52. */
  lemma TightPowers()
    ensures Pow(58, 71) <= Pow(256, 52)
  {
    hide Pow;
    SmallPowers();
    SomePowers();
    PowAdd(58, 15, 15);
    PowAdd(58, 30, 30);
    PowAdd(58, 60, 11);
    PowAdd(256, 11, 11);
    PowAdd(256, 22, 22);
    PowAdd(256, 44, 8);
  }

  /** 733/1000 of the characters, plus one, is enough room for the bytes. */
  lemma {:induction false} DecodedFits(n: nat)
    ensures Pow(58, n) <= Pow(256, DecodedSize(n))
  {
    hide Pow;
    if n >= 71 {
      DecodedFits(n - 71);
      TightPowers();
      PowAdd(58, 71, n - 71);
      PowAdd(256, 52, DecodedSize(n - 71));
      Products(Pow(58, 71), Pow(256, 52), Pow(58, n - 71), Pow(256, DecodedSize(n - 71)));
      PowLess(256, 52 + DecodedSize(n - 71), DecodedSize(n));
    } else {
      FewFit(n / 15, n % 15);
    }
  }

  /** The bytes that `n` characters need, `n` below 15. */
  function Need(n: nat): nat {
    if n == 0 then 0 else n * 733 / 1000 + 1
  }

  lemma {:induction false} FewFit(a: nat, b: nat)
    requires a <= 4 && b < 15
    ensures Pow(58, 15 * a + b) <= Pow(256, DecodedSize(15 * a + b))
  {
    hide Pow;
    FewFitExact(a, b);
    SizeEnough(a, b);
    PowLess(256, 11 * a + Need(b), DecodedSize(15 * a + b));
  }

  lemma SizeEnough(a: nat, b: nat)
    requires a <= 4 && b < 15
    ensures 11 * a + Need(b) <= DecodedSize(15 * a + b)
  {
    assert a == 0 || a == 1 || a == 2 || a == 3 || a == 4;
  }

  lemma {:induction false} FewFitExact(a: nat, b: nat)
    requires a <= 4 && b < 15
    ensures Pow(58, 15 * a + b) <= Pow(256, 11 * a + Need(b))
  {
    hide Pow;
    SmallPowers();
    SomePowers();
    if a > 0 {
      FewFitExact(a - 1, b);
      PowAdd(58, 15, 15 * (a - 1) + b);
      PowAdd(256, 11, 11 * (a - 1) + Need(b));
      Products(Pow(58, 15), Pow(256, 11), Pow(58, 15 * (a - 1) + b), Pow(256, 11 * (a - 1) + Need(b)));
    } else {
      PowZero(58);
    }
  }

  // ---------------------------------------------------------------- encoding

  function Repeat<T>(x: T, n: nat): (r: seq<T>)
    ensures |r| == n && forall k :: 0 <= k < n ==> r[k] == x
  {
    seq(n, _ => x)
  }

  /** How many times `x` stands at the front. */
  function Leading<T(==)>(s: seq<T>, x: T): (n: nat)
    ensures n <= |s| && (forall k :: 0 <= k < n ==> s[k] == x) && (n < |s| ==> s[n] != x)
  {
    if s == [] || s[0] != x then 0 else 1 + Leading(s[1..], x)
  }

  lemma LeadingIs<T>(s: seq<T>, x: T, n: nat)
    requires n <= |s| && (forall k :: 0 <= k < n ==> s[k] == x) && (n < |s| ==> s[n] != x)
    ensures Leading(s, x) == n
  {
    var m := Leading(s, x);
  }

  function Letters(digits: seq<nat>): (r: string)
    requires AreDigits(digits, 58)
    ensures |r| == |digits| && forall k :: 0 <= k < |r| ==> Digit(r[k]) == digits[k]
  {
    seq(|digits|, k requires 0 <= k < |digits| => Letter(digits[k]))
  }

  /** The encoding by arithmetic on the whole number: a 1 for every leading zero byte, then the digits. */
  function Encoded(input: seq<nat>): string {
    var z := Leading(input, 0);
    Repeat('1', z) + Letters(DigitsOf(Big(input[z..], 256), 58))
  }

  lemma PartFits(rest: seq<nat>, p: nat)
    requires p < |rest| && AreDigits(rest, 256)
    ensures 256 * Big(rest[..p], 256) + rest[p] == Big(rest[..p + 1], 256) < Pow(58, EncodedSize(|rest|))
  {
    hide Pow, Big;
    assert rest[..p + 1] == rest[..p] + [rest[p]];
    BigAppend(rest[..p], rest[p], 256);
    BigBound(rest[..p + 1], 256);
    PowLess(256, p + 1, |rest|);
    EncodedFits(|rest|);
  }

  /** The in-place encoder. Its buffer is always large enough, so no carry is ever left over. */
  method EncodeBase58(input: seq<nat>) returns (str: string)
    requires AreDigits(input, 256)
    ensures str == Encoded(input)
  {
    hide Pow, Big;
    var zeroes := 0;
    while zeroes < |input| && input[zeroes] == 0
      invariant 0 <= zeroes <= |input| && forall k :: 0 <= k < zeroes ==> input[k] == 0
    {
      zeroes := zeroes + 1;
    }
    LeadingIs(input, 0, zeroes);
    var rest := input[zeroes..];
    var size := EncodedSize(|rest|);
    var b58 := new nat[size](_ => 0);
    ZeroBuffer(b58[..], 58);
    var length := 0;
    var p := 0;
    BigNothing(rest, 256);
    while p < |rest|
      invariant 0 <= p <= |rest| && length <= size && AreDigits(b58[..], 58)
      invariant Big(b58[..], 58) == Big(rest[..p], 256) && IsLength(Big(b58[..], 58), length, 58)
    {
      PartFits(rest, p);
      length := MulAdd(b58, length, 256, 58, rest[p]);
      p := p + 1;
    }
    assert rest[..|rest|] == rest;
    str := Translate(b58, size - length, zeroes);
  }

  lemma ZeroBuffer(s: seq<nat>, b: nat)
    requires forall k :: 0 <= k < |s| ==> s[k] == 0
    ensures Big(s, b) == 0 && IsLength(0, 0, b)
  {
    BigZeros(s, |s|, b);
  }

  lemma BigNothing(s: seq<nat>, b: nat)
    ensures Big(s[..0], b) == 0
  {
  }

  /** Skips the zeros left in the buffer and spells the rest. */
  method Translate(b58: array<nat>, from: nat, zeroes: nat) returns (str: string)
    requires from <= b58.Length && AreDigits(b58[..], 58)
    requires Big(b58[..], 58) < Pow(58, b58.Length - from)
    ensures str == Repeat('1', zeroes) + Letters(DigitsOf(Big(b58[..], 58), 58))
  {
    hide Pow, Big;
    ghost var all := b58[..];
    LeadingZeros(all, |all| - from, 58);
    var it := from;
    while it < b58.Length && b58[it] == 0
      invariant from <= it <= b58.Length && b58[..] == all && forall k :: 0 <= k < it ==> all[k] == 0
    {
      it := it + 1;
    }
    ghost var digits := all[it..];
    BigZeros(all, it, 58);
    DigitsUnique(digits, 58);
    ghost var start := it;
    str := Repeat('1', zeroes);
    while it < b58.Length
      invariant start <= it <= b58.Length && b58[..] == all
      invariant str == Repeat('1', zeroes) + Letters(digits)[..it - start]
    {
      str := str + [Letter(b58[it])];
      it := it + 1;
    }
  }

  /** The encoder of the web wallet, on one big integer. */
  method WalletEncode(full: seq<nat>) returns (str: string)
    requires AreDigits(full, 256)
    ensures str == Encoded(full)
  {
    hide Pow, Big, DigitsOf;
    var zeros := 0;
    while zeros < |full| && full[zeros] == 0
      invariant 0 <= zeros <= |full| && forall k :: 0 <= k < zeros ==> full[k] == 0
    {
      zeros := zeros + 1;
    }
    LeadingIs(full, 0, zeros);
    BigZeros(full, zeros, 256);
    var num := 0;
    var p := 0;
    BigNothing(full, 256);
    while p < |full|
      invariant 0 <= p <= |full| && num == Big(full[..p], 256)
    {
      BigAppend(full[..p], full[p], 256);
      assert full[..p + 1] == full[..p] + [full[p]];
      num := num * 256 + full[p];
      p := p + 1;
    }
    assert full[..|full|] == full;
    ghost var all := DigitsOf(num, 58);
    str := "";
    while num > 0
      invariant num >= 0 && |DigitsOf(num, 58)| + |str| == |all|
      invariant Letters(DigitsOf(num, 58)) + str == Letters(all)
    {
      DigitsNext(num, 58);
      str := [Letter(num % 58)] + str;
      num := num / 58;
    }
    NoDigits(58);
    str := Repeat('1', zeros) + str;
  }

  lemma DigitsNext(v: nat, b: nat)
    requires b >= 2 && v > 0
    ensures DigitsOf(v, b) == DigitsOf(v / b, b) + [v % b]
  {
  }

  lemma NoDigits(b: nat)
    requires b >= 2
    ensures DigitsOf(0, b) == []
  {
  }

  // ---------------------------------------------------------------- decoding

  function SpacesAhead(s: string): (n: nat)
    ensures n <= |s| && (forall k :: 0 <= k < n ==> IsSpace(s[k])) && (n < |s| ==> !IsSpace(s[n]))
  {
    if s == [] || !IsSpace(s[0]) then 0 else 1 + SpacesAhead(s[1..])
  }

  function TokenLength(s: string): (n: nat)
    ensures n <= |s| && (forall k :: 0 <= k < n ==> !IsSpace(s[k])) && (n < |s| ==> IsSpace(s[n]))
  {
    if s == [] || IsSpace(s[0]) then 0 else 1 + TokenLength(s[1..])
  }

  predicate AllLetters(s: string) {
    forall k :: 0 <= k < |s| ==> Digit(s[k]) >= 0
  }

  function Digits(s: string): (r: seq<nat>)
    requires AllLetters(s)
    ensures |r| == |s| && AreDigits(r, 58) && forall k :: 0 <= k < |r| ==> r[k] == Digit(s[k])
  {
    seq(|s|, k requires 0 <= k < |s| => Digit(s[k]))
  }

  /** The parts of a string to decode: the leading 1s, the other letters, and whether only spaces follow. */
  datatype Split = Split(ones: nat, token: string, clean: bool)

  function SplitOf(s: string): Split {
    var t := s[SpacesAhead(s)..];
    var z := Leading(t, '1');
    var u := t[z..];
    var n := TokenLength(u);
    Split(z, u[..n], n + SpacesAhead(u[n..]) == |u|)
  }

  /** The decoding by arithmetic on the whole number. */
  function Decoded(s: string, maxLen: int): Option<seq<nat>> {
    var p := SplitOf(s);
    if 0 as char in s || !p.clean || !AllLetters(p.token) then None
    else
      var bytes := DigitsOf(Big(Digits(p.token), 58), 256);
      if 0 < p.ones + |p.token| && p.ones + |bytes| > maxLen then None else Some(Repeat(0, p.ones) + bytes)
  }

  lemma TokenFits(u: string, p: nat, n: nat)
    requires p < n <= |u| && AllLetters(u[..p + 1])
    ensures 58 * Big(Digits(u[..p]), 58) + Digit(u[p]) == Big(Digits(u[..p + 1]), 58) < Pow(256, DecodedSize(|u|))
  {
    hide Pow, Big;
    assert AllLetters(u[..p]) by {
      forall k | 0 <= k < p ensures Digit(u[..p][k]) >= 0 { assert u[..p][k] == u[..p + 1][k]; }
    }
    assert Digits(u[..p + 1]) == Digits(u[..p]) + [Digit(u[p])];
    BigAppend(Digits(u[..p]), Digit(u[p]), 58);
    BigBound(Digits(u[..p + 1]), 58);
    PowLess(58, p + 1, |u|);
    DecodedFits(|u|);
  }

  /** A number of `length` digits has that many. */
  lemma DigitCount(v: nat, length: nat, b: nat)
    requires b >= 2 && IsLength(v, length, b)
    ensures |DigitsOf(v, b)| == length
  {
    hide Pow, Big;
    var d := DigitsOf(v, b);
    DigitsFacts(v, b);
    BigBound(d, b);
    if |d| < length { PowLess(b, |d|, length - 1); assert false; }
    if |d| > length { BigNonEmpty(d, b); LeadingNonZero(d, b); PowLess(b, length, |d| - 1); assert false; }
  }

  lemma BigNonEmpty(d: seq<nat>, b: nat)
    requires b >= 2 && d != [] && d == DigitsOf(Big(d, b), b)
    ensures d[0] != 0
  {
    DigitsFacts(Big(d, b), b);
    NoDigits(b);
  }

  lemma SpacesIs(s: string, n: nat)
    requires n <= |s| && (forall k :: 0 <= k < n ==> IsSpace(s[k])) && (n < |s| ==> !IsSpace(s[n]))
    ensures SpacesAhead(s) == n
  {
    var m := SpacesAhead(s);
  }

  lemma TokenIs(s: string, n: nat)
    requires n <= |s| && (forall k :: 0 <= k < n ==> !IsSpace(s[k])) && (n < |s| ==> IsSpace(s[n]))
    ensures TokenLength(s) == n
  {
    var m := TokenLength(s);
  }

  lemma {:induction false} BigPrefix(s: seq<nat>, p: nat, b: nat)
    requires b >= 1 && p <= |s|
    ensures Big(s[..p], b) <= Big(s, b)
  {
    hide Pow, Big;
    if p == |s| {
      assert s[..p] == s;
    } else {
      var n := |s| - 1;
      BigPrefix(s[..n], p, b);
      assert s[..n][..p] == s[..p] && s == s[..n] + [s[n]];
      BigAppend(s[..n], s[n], b);
      MulMono(1, b, Big(s[..n], b));
    }
  }

  /** More digits read never make the number shorter. */
  lemma LongerStill(v: nat, w: nat, length: nat, b: nat)
    requires b >= 2 && v <= w && IsLength(v, length, b)
    ensures |DigitsOf(w, b)| >= length
  {
    hide Pow, Big;
    var d := DigitsOf(w, b);
    DigitsFacts(w, b);
    BigBound(d, b);
    if |d| < length { PowLess(b, |d|, length - 1); assert false; }
  }

  /** What is left after the leading spaces and ones. */
  ghost predicate IsBody(s: string, ones: nat, u: string) {
    0 as char !in s && SplitOf(s).ones == ones && SplitOf(s).token == u[..TokenLength(u)] &&
    SplitOf(s).clean == (TokenLength(u) + SpacesAhead(u[TokenLength(u)..]) == |u|)
  }

  /** A failure while the letters are read: not a letter, or already too long. */
  lemma TokenFails(s: string, ones: nat, u: string, q: nat, length: nat, maxLen: int)
    requires IsBody(s, ones, u) && q < TokenLength(u) && AllLetters(u[..q])
    requires Digit(u[q]) >= 0 ==>
               AllLetters(u[..q + 1]) && IsLength(Big(Digits(u[..q + 1]), 58), length, 256) && length + ones > maxLen
    ensures Decoded(s, maxLen) == None
  {
    hide Pow, Big;
    var token := u[..TokenLength(u)];
    assert token[q] == u[q];
    if AllLetters(token) {
      assert Digits(token)[..q + 1] == Digits(u[..q + 1]);
      BigPrefix(Digits(token), q + 1, 58);
      LongerStill(Big(Digits(u[..q + 1]), 58), Big(Digits(token), 58), length, 256);
    }
  }

  /** The in-place decoder. Its buffer is always large enough, so no carry is ever left over. */
  method DecodeBase58(s: string, maxLen: int) returns (r: Option<seq<nat>>)
    ensures r == Decoded(s, maxLen)
  {
    hide Pow, Big, SplitOf, Decoded;
    if 0 as char in s {
      Nul(s, maxLen);
      return None;
    }
    var p := 0;
    while p < |s| && IsSpace(s[p])
      invariant 0 <= p <= |s| && forall k :: 0 <= k < p ==> IsSpace(s[k])
    {
      p := p + 1;
    }
    SpacesIs(s, p);
    var t := s[p..];
    var zeroes := 0;
    while zeroes < |t| && t[zeroes] == '1'
      invariant 0 <= zeroes <= |t| && (zeroes == 0 || zeroes <= maxLen) && forall k :: 0 <= k < zeroes ==> t[k] == '1'
    {
      zeroes := zeroes + 1;
      if zeroes > maxLen {
        TooManyOnes(s, t, zeroes, maxLen);
        return None;
      }
    }
    LeadingIs(t, '1', zeroes);
    Body(s, zeroes);
    r := DecodeToken(s, t[zeroes..], zeroes, maxLen);
  }

  lemma Body(s: string, ones: nat)
    requires 0 as char !in s && ones == Leading(s[SpacesAhead(s)..], '1')
    ensures IsBody(s, ones, s[SpacesAhead(s)..][ones..])
  {
  }

  lemma Nul(s: string, maxLen: int)
    requires 0 as char in s
    ensures Decoded(s, maxLen) == None
  {
  }

  lemma TooManyOnes(s: string, t: string, zeroes: nat, maxLen: int)
    requires t == s[SpacesAhead(s)..] && 0 < zeroes <= |t| && zeroes > maxLen &&
             forall k :: 0 <= k < zeroes ==> t[k] == '1'
    ensures Decoded(s, maxLen) == None
  {
    var z := Leading(t, '1');
    assert z >= zeroes;
  }

  lemma LettersNext(u: string, q: nat)
    requires q < |u| && AllLetters(u[..q]) && Digit(u[q]) >= 0
    ensures AllLetters(u[..q + 1])
  {
    assert u[..q + 1] == u[..q] + [u[q]];
  }

  /** Reads letters up to a space or the end, accumulating their number in the buffer. */
  method ReadToken(ghost s: string, u: string, zeroes: nat, maxLen: int, b256: array<nat>)
    returns (ok: bool, q: nat, length: nat)
    requires IsBody(s, zeroes, u) && b256.Length == DecodedSize(|u|) &&
             forall k :: 0 <= k < b256.Length ==> b256[k] == 0
    modifies b256
    ensures !ok ==> Decoded(s, maxLen) == None
    ensures ok ==> q == TokenLength(u) && AllLetters(u[..q]) && length <= b256.Length && AreDigits(b256[..], 256)
    ensures ok ==> Big(b256[..], 256) == Big(Digits(u[..q]), 58) && IsLength(Big(b256[..], 256), length, 256)
    ensures ok && q > 0 ==> length + zeroes <= maxLen
  {
    hide Pow, Big, Decoded, IsBody, IsLength, DecodedSize;
    ZeroBuffer(b256[..], 256);
    length := 0;
    q := 0;
    BigNothing(Digits(u[..0]), 58);
    assert Digits(u[..0])[..0] == Digits(u[..0]);
    while q < |u| && !IsSpace(u[q])
      invariant 0 <= q <= |u| && length <= b256.Length && AreDigits(b256[..], 256) && AllLetters(u[..q])
      invariant forall k :: 0 <= k < q ==> !IsSpace(u[k])
      invariant Big(b256[..], 256) == Big(Digits(u[..q]), 58) && IsLength(Big(b256[..], 256), length, 256)
      invariant q > 0 ==> length + zeroes <= maxLen
    {
      TokenReaches(u, q);
      if Digit(u[q]) == -1 {
        TokenFails(s, zeroes, u, q, length, maxLen);
        return false, q, length;
      }
      LettersNext(u, q);
      TokenFits(u, q, |u|);
      length := MulAdd(b256, length, 58, 256, Digit(u[q]));
      if length + zeroes > maxLen {
        TokenFails(s, zeroes, u, q, length, maxLen);
        return false, q, length;
      }
      q := q + 1;
    }
    TokenIs(u, q);
    ok := true;
  }

  method DecodeToken(ghost s: string, u: string, zeroes: nat, maxLen: int) returns (r: Option<seq<nat>>)
    requires IsBody(s, zeroes, u) && (zeroes > 0 ==> zeroes <= maxLen)
    ensures r == Decoded(s, maxLen)
  {
    hide Pow, Big, SplitOf, IsLength;
    var size := DecodedSize(|u|);
    var b256 := new nat[size](_ => 0);
    var ok, q, length := ReadToken(s, u, zeroes, maxLen, b256);
    if !ok {
      return None;
    }
    var e := q;
    while e < |u| && IsSpace(u[e])
      invariant q <= e <= |u| && forall k :: q <= k < e ==> IsSpace(u[k])
    {
      e := e + 1;
    }
    SpacesIs(u[q..], e - q);
    if e < |u| {
      return None;
    }
    DigitCount(Big(b256[..], 256), length, 256);
    BufferDigits(b256[..], length);
    if q == 0 { ZeroLength(u, length); }
    r := Some(Repeat(0, zeroes) + b256[size - length..]);
  }

  lemma ZeroLength(u: string, length: nat)
    requires IsLength(Big(Digits(u[..0]), 58), length, 256)
    ensures length == 0
  {
    hide Pow;
    BigNothing(Digits(u[..0]), 58);
    if length > 0 { PowPositive(256, length - 1); }
  }

  lemma TokenReaches(u: string, q: nat)
    requires q < |u| && !IsSpace(u[q]) && forall k :: 0 <= k < q ==> !IsSpace(u[k])
    ensures q < TokenLength(u)
  {
    var n := TokenLength(u);
  }

  /** A number that needs all its digits does not start with a zero. */
  lemma FirstDigit(d: seq<nat>, b: nat)
    requires d != [] && AreDigits(d, b) && IsLength(Big(d, b), |d|, b)
    ensures d[0] != 0
  {
    hide Pow, Big;
    if d[0] == 0 {
      BigZeros(d, 1, b);
      BigBound(d[1..], b);
      assert false;
    }
  }

  lemma BufferDigits(s: seq<nat>, length: nat)
    requires length <= |s| && AreDigits(s, 256) && IsLength(Big(s, 256), length, 256)
    ensures s[|s| - length..] == DigitsOf(Big(s, 256), 256)
  {
    hide Pow, Big, DigitsOf;
    LeadingZeros(s, length, 256);
    BigZeros(s, |s| - length, 256);
    var d := s[|s| - length..];
    if length > 0 { FirstDigit(d, 256); }
    DigitsUnique(d, 256);
  }

  // ---------------------------------------------------------------- round trips

  /** A string without spaces is its leading ones and the rest. */
  lemma SplitPlain(s: string, z: nat)
    requires z <= |s| && (forall k :: 0 <= k < |s| ==> !IsSpace(s[k]))
    requires (forall k :: 0 <= k < z ==> s[k] == '1') && (z < |s| ==> s[z] != '1')
    ensures SplitOf(s) == Split(z, s[z..], true)
  {
    SpacesIs(s, 0);
    assert s[0..] == s;
    LeadingIs(s, '1', z);
    var u := s[z..];
    TokenIs(u, |u|);
    assert u[..|u|] == u && u[|u|..] == [];
  }

  predicate NoLeadingZero(d: seq<nat>) {
    d != [] ==> d[0] != 0
  }

  lemma EncodedIs(z: nat, b: seq<nat>)
    requires NoLeadingZero(b)
    ensures Encoded(Repeat(0, z) + b) == Repeat('1', z) + Letters(DigitsOf(Big(b, 256), 58))
  {
    hide Big, DigitsOf, Letters;
    var x := Repeat(0, z) + b;
    LeadingIs(x, 0, z);
    assert x[z..] == b;
  }

  lemma SpellingSplits(z: nat, d: seq<nat>)
    requires AreDigits(d, 58) && NoLeadingZero(d)
    ensures var s := Repeat('1', z) + Letters(d);
            0 as char !in s && SplitOf(s) == Split(z, Letters(d), true)
  {
    hide SplitOf;
    var s := Repeat('1', z) + Letters(d);
    forall k | 0 <= k < |s| ensures !IsSpace(s[k]) && s[k] != 0 as char {
      if k >= z { assert s[k] == Letters(d)[k - z]; }
    }
    if z < |s| { assert s[z] == Letters(d)[0]; }
    SplitPlain(s, z);
    assert s[z..] == Letters(d);
  }

  /** What a string of ones and letters decodes to. */
  lemma DecodedIs(z: nat, d: seq<nat>, maxLen: int)
    requires AreDigits(d, 58) && NoLeadingZero(d)
    ensures var b := DigitsOf(Big(d, 58), 256);
            Decoded(Repeat('1', z) + Letters(d), maxLen) ==
            if 0 < z + |d| && z + |b| > maxLen then None else Some(Repeat(0, z) + b)
  {
    hide Big, DigitsOf, SplitOf, Letters;
    SpellingSplits(z, d);
    assert Digits(Letters(d)) == d;
  }

  /** Decoding an encoding gives the bytes back, unless there are more of them than allowed. */
  lemma DecodeEncode(x: seq<nat>, maxLen: int)
    requires AreDigits(x, 256)
    ensures Decoded(Encoded(x), maxLen) == if x != [] && |x| > maxLen then None else Some(x)
  {
    hide Big, DigitsOf, Decoded, Encoded, Letters;
    var z := Leading(x, 0);
    var b := x[z..];
    var d := DigitsOf(Big(b, 256), 58);
    assert x == Repeat(0, z) + b;
    DigitsFacts(Big(b, 256), 58);
    DigitsUnique(b, 256);
    NoDigits(58);
    NoDigits(256);
    BigNothing(b, 256);
    assert b == [] ==> b[..0] == b;
    EncodedIs(z, b);
    DecodedIs(z, d, maxLen);
  }

  /** A string without spaces that decodes is spelled by its digits. */
  lemma Spelled(s: string, maxLen: int) returns (z: nat, d: seq<nat>)
    requires (forall k :: 0 <= k < |s| ==> !IsSpace(s[k])) && Decoded(s, maxLen).Some?
    ensures AreDigits(d, 58) && NoLeadingZero(d) && s == Repeat('1', z) + Letters(d)
  {
    hide Big, DigitsOf, SplitOf, Leading;
    z := Leading(s, '1');
    SplitPlain(s, z);
    var u := s[z..];
    d := Digits(u);
    forall k | 0 <= k < |u| ensures Letters(d)[k] == u[k] {
      LetterOfDigit(u[k]);
    }
    assert s == Repeat('1', z) + u;
  }

  /** Encoding what a string without spaces decodes to gives the string back. */
  lemma EncodeDecode(s: string, maxLen: int)
    requires (forall k :: 0 <= k < |s| ==> !IsSpace(s[k])) && Decoded(s, maxLen).Some?
    ensures Encoded(Decoded(s, maxLen).value) == s
  {
    hide Big, DigitsOf, Decoded, Encoded, Letters, SplitOf;
    var z, d := Spelled(s, maxLen);
    DecodedIs(z, d, maxLen);
    var b := DigitsOf(Big(d, 58), 256);
    DigitsFacts(Big(d, 58), 256);
    DigitsUnique(d, 58);
    NoDigits(256);
    EncodedIs(z, b);
  }

  /** An accepted string gives no more bytes than the limit exactly when the limit is not negative or the
      string holds something besides spaces. */
  lemma WithinLimit(s: string, maxLen: int)
    requires Decoded(s, maxLen).Some?
    ensures |Decoded(s, maxLen).value| <= maxLen <==> maxLen >= 0 || exists k :: 0 <= k < |s| && !IsSpace(s[k])
  {
    hide Big, DigitsOf, Leading;
    var p := SplitOf(s);
    NoDigits(256);
    NothingToDecode(s);
    BigNothing([], 58);
    if p.ones + |p.token| == 0 { assert Digits(p.token) == [] && Big([], 58) == 0; }
  }

  /** A string without a NUL that decodes has no ones and no letters exactly when it is all spaces. */
  lemma NothingToDecode(s: string)
    requires SplitOf(s).clean
    ensures SplitOf(s).ones + |SplitOf(s).token| == 0 <==> forall k :: 0 <= k < |s| ==> IsSpace(s[k])
  {
    var n := SpacesAhead(s);
    var t := s[n..];
    if n < |s| {
      assert t[0] == s[n] && !IsSpace(t[0]);
      var z := Leading(t, '1');
      if z == 0 { assert t[z..] == t && TokenLength(t) > 0; }
    } else {
      assert t == [];
    }
  }

  /** A string of spaces is accepted whatever the limit. */
  lemma SpacesDecode(s: string, maxLen: int)
    requires forall k :: 0 <= k < |s| ==> IsSpace(s[k])
    ensures Decoded(s, maxLen) == Some([])
  {
    hide Big, DigitsOf;
    SpacesIs(s, |s|);
    assert s[|s|..] == "";
    assert SplitOf(s) == Split(0, "", true);
    var none := Digits("");
    assert none[..0] == none == [];
    BigNothing(none, 58);
    NoDigits(256);
    assert Repeat(0, 0) + [] == [];
  }

  /** So with a limit of -1 two spaces give a result that is longer than the limit. */
  lemma NegativeLimit() returns (s: string)
    ensures s == "  " && Decoded(s, -1) == Some([]) && |Decoded(s, -1).value| > -1
  {
    hide Decoded;
    s := "  ";
    SpacesDecode(s, -1);
  }
}
