/** Encoding and decoding of Bech32 and Bech32m strings. */
module Bech32Codec {
  import opened Bech32
  import opened Options

  // ---------------------------------------------------------------- characters

  function CharsetLow(v: bv32): char
    requires v < 16
  {
    if v == 0 then 'q' else if v == 1 then 'p' else if v == 2 then 'z' else if v == 3 then 'r'
    else if v == 4 then 'y' else if v == 5 then '9' else if v == 6 then 'x' else if v == 7 then '8'
    else if v == 8 then 'g' else if v == 9 then 'f' else if v == 10 then '2' else if v == 11 then 't'
    else if v == 12 then 'v' else if v == 13 then 'd' else if v == 14 then 'w' else '0'
  }

  function CharsetHigh(v: bv32): char
    requires 16 <= v < 32
  {
    if v == 16 then 's' else if v == 17 then '3' else if v == 18 then 'j' else if v == 19 then 'n'
    else if v == 20 then '5' else if v == 21 then '4' else if v == 22 then 'k' else if v == 23 then 'h'
    else if v == 24 then 'c' else if v == 25 then 'e' else if v == 26 then '6' else if v == 27 then 'm'
    else if v == 28 then 'u' else if v == 29 then 'a' else if v == 30 then '7' else 'l'
  }

  /** The character of a value. */
  function Charset(v: bv32): char
    requires v < 32
  {
    if v < 16 then CharsetLow(v) else CharsetHigh(v)
  }

  function ValueLow(c: char): Option<bv32> {
    if c == 'q' then Some(0) else if c == 'p' then Some(1) else if c == 'z' then Some(2) else if c == 'r' then Some(3)
    else if c == 'y' then Some(4) else if c == '9' then Some(5) else if c == 'x' then Some(6)
    else if c == '8' then Some(7)
    else if c == 'g' then Some(8) else if c == 'f' then Some(9) else if c == '2' then Some(10)
    else if c == 't' then Some(11)
    else if c == 'v' then Some(12) else if c == 'd' then Some(13) else if c == 'w' then Some(14)
    else if c == '0' then Some(15) else None
  }

  function ValueHigh(c: char): Option<bv32> {
    if c == 's' then Some(16) else if c == '3' then Some(17) else if c == 'j' then Some(18)
    else if c == 'n' then Some(19)
    else if c == '5' then Some(20) else if c == '4' then Some(21) else if c == 'k' then Some(22)
    else if c == 'h' then Some(23)
    else if c == 'c' then Some(24) else if c == 'e' then Some(25) else if c == '6' then Some(26)
    else if c == 'm' then Some(27)
    else if c == 'u' then Some(28) else if c == 'a' then Some(29) else if c == '7' then Some(30)
    else if c == 'l' then Some(31) else None
  }

  /** The value of a character in lower case, if it has one. */
  function Value(c: char): Option<bv32> {
    if ValueLow(c).Some? then ValueLow(c) else ValueHigh(c)
  }

  /** A character that can stand in the data part. */
  predicate IsPlain(c: char) {
    IsLower(c) && c != '1' && 33 <= c as int <= 126
  }

  lemma ValueOfLow(v: bv32)
    requires v < 16
    ensures ValueLow(CharsetLow(v)) == Some(v) && IsPlain(CharsetLow(v))
  {
  }

  lemma ValueOfHigh(v: bv32)
    requires 16 <= v < 32
    ensures ValueLow(CharsetHigh(v)) == None && ValueHigh(CharsetHigh(v)) == Some(v) && IsPlain(CharsetHigh(v))
  {
  }

  lemma ValueOfCharset(v: bv32)
    requires v < 32
    ensures Value(Charset(v)) == Some(v) && IsPlain(Charset(v))
  {
    hide CharsetLow, CharsetHigh, ValueLow, ValueHigh, IsPlain;
    if v < 16 { ValueOfLow(v); } else { ValueOfHigh(v); }
  }

  lemma LowOfValue(c: char)
    requires ValueLow(c).Some?
    ensures ValueLow(c).value < 16 && CharsetLow(ValueLow(c).value) == c && c != '1'
  {
  }

  lemma HighOfValue(c: char)
    requires ValueHigh(c).Some?
    ensures 16 <= ValueHigh(c).value < 32 && CharsetHigh(ValueHigh(c).value) == c && c != '1'
  {
  }

  lemma CharsetOfValue(c: char)
    requires Value(c).Some?
    ensures Value(c).value < 32 && Charset(Value(c).value) == c && c != '1'
  {
    hide CharsetLow, CharsetHigh, ValueLow, ValueHigh;
    if ValueLow(c).Some? { LowOfValue(c); } else { HighOfValue(c); }
  }

  predicate IsUpper(c: char) {
    'A' <= c <= 'Z'
  }

  /** Not an upper case letter. */
  predicate IsLower(c: char) {
    !IsUpper(c)
  }

  function LowerCase(c: char): char {
    if IsUpper(c) then (c as int - 'A' as int + 'a' as int) as char else c
  }

  function Lower(s: string): (r: string)
    ensures |r| == |s| && forall k :: 0 <= k < |s| ==> r[k] == LowerCase(s[k])
  {
    seq(|s|, k requires 0 <= k < |s| => LowerCase(s[k]))
  }

  predicate AllLower(s: string) {
    forall k :: 0 <= k < |s| ==> IsLower(s[k])
  }

  predicate InRange(s: string) {
    forall k :: 0 <= k < |s| ==> 33 <= s[k] as int <= 126
  }

  /** Printable characters only, and not both upper and lower case letters. */
  ghost predicate CharactersOk(s: string) {
    && InRange(s)
    && forall i, j :: 0 <= i < |s| && 0 <= j < |s| ==> !('a' <= s[i] <= 'z' && IsUpper(s[j]))
  }

  predicate IsSmall(c: char) {
    'a' <= c <= 'z'
  }

  /** The first letter among the first `n` characters is of lower case. */
  ghost predicate LowerFirst(s: string, n: nat)
    requires n <= |s|
  {
    exists j :: 0 <= j < n && IsSmall(s[j]) && forall i :: 0 <= i < j ==> !IsUpper(s[i])
  }

  ghost predicate UpperFirst(s: string, n: nat)
    requires n <= |s|
  {
    exists j :: 0 <= j < n && IsUpper(s[j]) && forall i :: 0 <= i < j ==> !IsSmall(s[i])
  }

  /** A character is wrong if it is not printable, or a letter not of the case of the first letter. */
  ghost predicate Wrong(s: string, k: nat)
    requires k < |s|
  {
    !(33 <= s[k] as int <= 126) || (IsUpper(s[k]) && LowerFirst(s, k)) || (IsSmall(s[k]) && UpperFirst(s, k))
  }

  lemma {:induction false} FirstLetter(s: string, n: nat, k: nat)
    requires k < n <= |s| && (IsSmall(s[k]) || IsUpper(s[k]))
    ensures LowerFirst(s, n) || UpperFirst(s, n)
    decreases k
  {
    if IsSmall(s[k]) {
      if i :| 0 <= i < k && IsUpper(s[i]) { FirstLetter(s, n, i); }
    } else {
      if i :| 0 <= i < k && IsSmall(s[i]) { FirstLetter(s, n, i); }
    }
  }

  /** The case of the first letter, one character on. */
  lemma FirstLetterNext(s: string, n: nat)
    requires n < |s|
    ensures LowerFirst(s, n + 1) <==> LowerFirst(s, n) || (IsSmall(s[n]) && !UpperFirst(s, n))
    ensures UpperFirst(s, n + 1) <==> UpperFirst(s, n) || (IsUpper(s[n]) && !LowerFirst(s, n))
  {
    if k :| 0 <= k < n && (IsSmall(s[k]) || IsUpper(s[k])) { FirstLetter(s, n, k); }
  }

  lemma BothCases(s: string, i: nat, j: nat) returns (k: nat)
    requires i < |s| && j < |s| && IsSmall(s[i]) && IsUpper(s[j])
    ensures k < |s| && Wrong(s, k)
  {
    FirstLetter(s, |s|, i);
    if LowerFirst(s, |s|) {
      var f :| 0 <= f < |s| && IsSmall(s[f]) && forall i :: 0 <= i < f ==> !IsUpper(s[i]);
      assert f < j;
      k := j;
    } else {
      var f :| 0 <= f < |s| && IsUpper(s[f]) && forall i :: 0 <= i < f ==> !IsSmall(s[i]);
      assert f < i;
      k := i;
    }
  }

  lemma NothingWrong(s: string)
    requires forall k :: 0 <= k < |s| ==> !Wrong(s, k)
    ensures CharactersOk(s)
  {
    forall k | 0 <= k < |s| ensures 33 <= s[k] as int <= 126 { assert !Wrong(s, k); }
    hide Wrong;
    forall i, j | 0 <= i < |s| && 0 <= j < |s| ensures !('a' <= s[i] <= 'z' && IsUpper(s[j])) {
      if IsSmall(s[i]) && IsUpper(s[j]) { var k := BothCases(s, i, j); }
    }
  }

  lemma SomethingWrong(s: string, k: nat)
    requires k < |s| && Wrong(s, k)
    ensures !CharactersOk(s)
  {
  }

  /** The places of the wrong ones among the first `n` characters, in order. */
  ghost predicate Found(s: string, n: nat, errors: seq<nat>)
    requires n <= |s|
  {
    && (forall k :: k in errors <==> 0 <= k < n && Wrong(s, k))
    && forall i, j :: 0 <= i < j < |errors| ==> errors[i] < errors[j]
  }

  lemma FoundNext(s: string, n: nat, errors: seq<nat>)
    requires n < |s| && Found(s, n, errors)
    ensures Found(s, n + 1, if Wrong(s, n) then errors + [n] else errors)
  {
    hide Wrong;
    forall i | 0 <= i < |errors| ensures errors[i] < n { assert errors[i] in errors; }
  }

  lemma FoundNone(s: string)
    ensures Found(s, 0, []) && !LowerFirst(s, 0) && !UpperFirst(s, 0)
  {
  }

  lemma WrongIs(s: string, k: nat)
    requires k < |s|
    ensures Wrong(s, k) <==>
            if 'a' <= s[k] <= 'z' then UpperFirst(s, k) else if 'A' <= s[k] <= 'Z' then LowerFirst(s, k)
            else s[k] < 33 as char || s[k] > 126 as char
  {
    hide UpperFirst, LowerFirst;
  }

  lemma FoundAll(s: string, errors: seq<nat>)
    requires Found(s, |s|, errors)
    ensures errors == [] <==> CharactersOk(s)
  {
    hide Wrong, CharactersOk;
    if errors == [] {
      forall k | 0 <= k < |s| ensures !Wrong(s, k) { assert k !in errors; }
      NothingWrong(s);
    } else {
      assert errors[0] in errors;
      SomethingWrong(s, errors[0]);
    }
  }

  /** The places of wrong characters, in order. */
  method CheckCharacters(s: string) returns (errors: seq<nat>)
    ensures Found(s, |s|, errors)
    ensures errors == [] <==> CharactersOk(s)
  {
    hide LowerFirst, UpperFirst, CharactersOk, Found, Wrong;
    errors := [];
    var lower, upper := false, false;
    var i := 0;
    FoundNone(s);
    while i < |s|
      invariant 0 <= i <= |s| && Found(s, i, errors)
      invariant lower <==> LowerFirst(s, i)
      invariant upper <==> UpperFirst(s, i)
    {
      var c := s[i];
      FirstLetterNext(s, i);
      WrongIs(s, i);
      FoundNext(s, i, errors);
      if 'a' <= c <= 'z' {
        if upper {
          errors := errors + [i];
        } else {
          lower := true;
        }
      } else if 'A' <= c <= 'Z' {
        if lower {
          errors := errors + [i];
        } else {
          upper := true;
        }
      } else if c < 33 as char || c > 126 as char {
        errors := errors + [i];
      }
      i := i + 1;
    }
    FoundAll(s, errors);
  }

  // ---------------------------------------------------------------- encoding

  function Chars(values: seq<bv32>): (r: string)
    requires IsData(values)
    ensures |r| == |values| && forall k :: 0 <= k < |r| ==> r[k] == Charset(values[k])
  {
    seq(|values|, k requires 0 <= k < |values| => Charset(values[k]))
  }

  lemma ChecksumIsData(e: Encoding, hrp: string, values: seq<bv32>)
    ensures IsData(Checksum(e, hrp, values))
  {
    hide IsData, Groups;
    GroupsAreData(Add(Residue(hrp, values), EncodingConstant(e)));
  }

  ghost predicate IsEncoding(s: string, e: Encoding, hrp: string, values: seq<bv32>)
    requires IsData(values)
  {
    IsData(values + Checksum(e, hrp, values)) && s == hrp + "1" + Chars(values + Checksum(e, hrp, values))
  }

  /** Spells a prefix, a separator, the values and their checksum. The prefix must not have capitals. */
  method Encode(e: Encoding, hrp: string, values: seq<bv32>) returns (s: string)
    requires AllLower(hrp) && IsData(values)
    ensures IsEncoding(s, e, hrp, values)
  {
    hide Charset, Checksum;
    ChecksumIsData(e, hrp, values);
    var sum := CreateChecksum(e, hrp, values);
    var combined := values + sum;
    s := hrp + "1";
    var i := 0;
    while i < |combined|
      invariant 0 <= i <= |combined| && IsData(combined) && s == hrp + "1" + Chars(combined)[..i]
    {
      s := s + [Charset(combined[i])];
      i := i + 1;
    }
  }

  // ---------------------------------------------------------------- decoding

  datatype Result = Result(encoding: Encoding, hrp: string, values: seq<bv32>)

  /** The last place of the separator, or -1. */
  function LastOne(s: string): (p: int)
    ensures -1 <= p < |s| && (p >= 0 ==> s[p] == '1') && forall k :: p < k < |s| ==> s[k] != '1'
  {
    if s == [] then -1 else if s[|s| - 1] == '1' then |s| - 1 else LastOne(s[..|s| - 1])
  }

  lemma LastOneIs(s: string, p: nat)
    requires p < |s| && s[p] == '1' && forall k :: p < k < |s| ==> s[k] != '1'
    ensures LastOne(s) == p
  {
    assert LastOne(s) >= p;
  }

  predicate AllValues(s: string) {
    forall k :: 0 <= k < |s| ==> Value(LowerCase(s[k])).Some?
  }

  function Values(s: string): (r: seq<bv32>)
    requires AllValues(s)
    ensures |r| == |s| && forall k :: 0 <= k < |s| ==> r[k] == Value(LowerCase(s[k])).value
  {
    seq(|s|, k requires 0 <= k < |s| => Value(LowerCase(s[k])).value)
  }

  ghost function Decoded(s: string): Option<Result> {
    var pos := LastOne(s);
    if !CharactersOk(s) || |s| > 90 || pos <= 0 || pos + 7 > |s| || !AllValues(s[pos + 1..]) then None
    else
      var hrp := Lower(s[..pos]);
      var values := Values(s[pos + 1..]);
      match VerifyChecksum(hrp, values)
      case None => None
      case Some(e) => Some(Result(e, hrp, values[..|values| - 6]))
  }

  /** The values of the characters of the data part, unless one has none. */
  method ReadValues(tail: string) returns (r: Option<seq<bv32>>)
    ensures r.Some? <==> AllValues(tail)
    ensures r.Some? ==> r.value == Values(tail)
  {
    hide Value, LowerCase;
    var values: seq<bv32> := [];
    var i := 0;
    while i < |tail|
      invariant 0 <= i <= |tail| && AllValues(tail[..i]) && values == Values(tail[..i])
    {
      var v := Value(LowerCase(tail[i]));
      if v == None {
        return None;
      }
      values := values + [v.value];
      assert tail[..i + 1] == tail[..i] + [tail[i]];
      i := i + 1;
    }
    assert tail[..|tail|] == tail;
    r := Some(values);
  }

  method ReadPrefix(s: string) returns (hrp: string)
    ensures hrp == Lower(s)
  {
    hide LowerCase;
    hrp := "";
    var i := 0;
    while i < |s|
      invariant 0 <= i <= |s| && hrp == Lower(s[..i])
    {
      hrp := hrp + [LowerCase(s[i])];
      i := i + 1;
    }
    assert s[..|s|] == s;
  }

  method Decode(s: string) returns (r: Option<Result>)
    ensures r == Decoded(s)
  {
    hide VerifyChecksum, CharactersOk, AllValues, Values, Lower, LastOne, Found;
    var errors := CheckCharacters(s);
    if errors != [] {
      return None;
    }
    var pos := LastOne(s);
    if |s| > 90 || pos == -1 || pos == 0 || pos + 7 > |s| {
      return None;
    }
    var values := ReadValues(s[pos + 1..]);
    if values.None? {
      return None;
    }
    var hrp := ReadPrefix(s[..pos]);
    var check := PolyMod(ExpandHrp(hrp) + values.value);
    r := Verdict(check, hrp, values.value);
    CheckIs(hrp, values.value);
  }

  function Verdict(check: bv32, hrp: string, values: seq<bv32>): Option<Result>
    requires |values| >= 6
  {
    var data := values[..|values| - 6];
    if check == EncodingConstant(Plain) then Some(Result(Plain, hrp, data))
    else if check == EncodingConstant(M) then Some(Result(M, hrp, data))
    else None
  }

  lemma CheckIs(hrp: string, values: seq<bv32>)
    requires |values| >= 6
    ensures Verdict(Remainder(1, ExpandHrp(hrp) + values), hrp, values) ==
            match VerifyChecksum(hrp, values)
            case None => None
            case Some(e) => Some(Result(e, hrp, values[..|values| - 6]))
  {
    hide Remainder, ExpandHrp;
  }

  // ---------------------------------------------------------------- round trips

  lemma CharsPlain(values: seq<bv32>)
    requires IsData(values)
    ensures forall k :: 0 <= k < |values| ==> IsPlain(Chars(values)[k])
    ensures AllValues(Chars(values)) && Values(Chars(values)) == values
  {
    hide Charset, Value;
    forall k | 0 <= k < |values|
      ensures IsPlain(Chars(values)[k]) && Value(LowerCase(Chars(values)[k])) == Some(values[k])
    {
      ValueOfCharset(values[k]);
    }
  }

  /** A lower case prefix, a separator and plain characters: where the separator is found, and when all
      characters are acceptable. */
  lemma EncodingShape(s: string, hrp: string, tail: string)
    requires AllLower(hrp) && s == hrp + "1" + tail && forall k :: 0 <= k < |tail| ==> IsPlain(tail[k])
    ensures LastOne(s) == |hrp| && (CharactersOk(s) <==> InRange(hrp))
    ensures s[|hrp| + 1..] == tail && s[..|hrp|] == hrp && Lower(hrp) == hrp
  {
    forall k | 0 <= k < |s| ensures IsLower(s[k]) && (k > |hrp| ==> IsPlain(s[k])) {
      if k > |hrp| { assert s[k] == tail[k - |hrp| - 1]; }
    }
    LastOneIs(s, |hrp|);
    if InRange(s) {
      forall k | 0 <= k < |hrp| ensures 33 <= hrp[k] as int <= 126 { assert hrp[k] == s[k]; }
    }
    if InRange(hrp) {
      forall k | 0 <= k < |s| ensures 33 <= s[k] as int <= 126 {
        if k < |hrp| { assert hrp[k] == s[k]; }
      }
    }
  }

  /** An encoding decodes to its parts exactly when the prefix is printable and not empty and the whole is
      at most ninety characters long. */
  lemma DecodeEncode(s: string, e: Encoding, hrp: string, values: seq<bv32>)
    requires AllLower(hrp) && IsData(values) && IsEncoding(s, e, hrp, values)
    ensures Decoded(s) ==
            if hrp != [] && InRange(hrp) && |hrp| + 7 + |values| <= 90 then Some(Result(e, hrp, values)) else None
  {
    hide Checksum, VerifyChecksum, CharactersOk, LastOne, Chars, Values, AllValues, IsPlain;
    var sum := Checksum(e, hrp, values);
    CharsPlain(values + sum);
    EncodingShape(s, hrp, Chars(values + sum));
    ChecksumIsData(e, hrp, values);
    Verifies(e, hrp, values, sum);
    assert (values + sum)[..|values|] == values;
  }

  lemma ValuesAreData(s: string)
    requires AllValues(s)
    ensures IsData(Values(s)) && Chars(Values(s)) == Lower(s)
  {
    hide Charset, Value;
    forall k | 0 <= k < |s| ensures Values(s)[k] < 32 && Charset(Values(s)[k]) == LowerCase(s[k]) {
      CharsetOfValue(LowerCase(s[k]));
    }
  }

  /** Whatever decodes is, in lower case, the encoding of what it decodes to. */
  lemma EncodeDecode(s: string)
    requires Decoded(s).Some?
    ensures var r := Decoded(s).value;
            AllLower(r.hrp) && IsData(r.values) && IsEncoding(Lower(s), r.encoding, r.hrp, r.values)
  {
    hide Checksum, VerifyChecksum, CharactersOk, Chars, Values, Value, Charset;
    var r := Decoded(s).value;
    var pos := LastOne(s);
    var all := Values(s[pos + 1..]);
    ValuesAreData(s[pos + 1..]);
    var sum := all[|all| - 6..];
    assert all == r.values + sum;
    Verifies(r.encoding, r.hrp, r.values, sum);
    assert s == s[..pos] + "1" + s[pos + 1..];
    LowerParts(s, pos);
  }

  lemma LowerParts(s: string, pos: nat)
    requires pos < |s| && s[pos] == '1'
    ensures Lower(s) == Lower(s[..pos]) + "1" + Lower(s[pos + 1..]) && AllLower(Lower(s[..pos]))
  {
  }
}
