/** How far apart strings are that the decoder accepts. */
module Bech32Distance {
  import opened Bech32
  import opened Bech32Codec
  import opened Options
  import Bch

  /** The places where two strings differ. */
  function Differing(s: string, t: string): set<nat>
    requires |s| == |t|
  {
    set p: nat | p < |s| && s[p] != t[p]
  }

  // ---------------------------------------------------------------- values and characters

  lemma DifferIff(s: string, t: string, k: nat)
    requires AllValues(s) && AllValues(t) && k < |s| == |t|
    ensures Values(s)[k] == Values(t)[k] <==> LowerCase(s[k]) == LowerCase(t[k])
  {
    hide Charset, Value, LowerCase;
    CharsetOfValue(LowerCase(s[k]));
    CharsetOfValue(LowerCase(t[k]));
  }

  /** Strings differ in their prefixes, and where they differ in their values. */
  lemma DifferingIs(g: string, h: string, s: string, t: string)
    requires AllValues(s) && AllValues(t) && |s| == |t| && |g| == |h|
    ensures Differing(g + "1" + Lower(s), h + "1" + Lower(t)) ==
            Differing(g, h) + Bch.Later(Bch.Errors(Values(s), Values(t)), |g| + 1)
  {
    hide AllValues, Value, LowerCase;
    var n := |g| + 1;
    var x, y := g + "1" + Lower(s), h + "1" + Lower(t);
    var d, e := Differing(x, y), Bch.Errors(Values(s), Values(t));
    forall p | p in d ensures p in Differing(g, h) + Bch.Later(e, n) {
      if p >= n {
        DifferIff(s, t, p - n);
        assert p - n in e;
      }
    }
    forall p | p in e ensures n + p in d {
      DifferIff(s, t, p);
    }
    forall p | p in Differing(g, h) ensures p in d {
      assert x[p] == g[p] && y[p] == h[p];
    }
  }

  // ---------------------------------------------------------------- errors as the checksum sees them

  predicate IsBytes(s: string) {
    forall k :: 0 <= k < |s| ==> s[k] as int < 256
  }

  /** An error in the prefix is at most two for the checksum, one in the data is one. */
  lemma SeenErrors(g: string, h: string, v: seq<bv32>, w: seq<bv32>, p: nat)
    requires |g| == |h| && |v| == |w| && IsBytes(g) && IsBytes(h) && IsData(v) && IsData(w)
    requires p < 2 * |g| + 1 + |v|
    ensures var s, t, n := ExpandHrp(g) + v, ExpandHrp(h) + w, |g|;
            && (s[p] == t[p] || (s[p] < 32 && t[p] < 32))
            && (s[p] != t[p] ==>
                  || p in Differing(g, h) || p in Bch.Later(Differing(g, h), n + 1)
                  || p in Bch.Later(Bch.Errors(v, w), 2 * n + 1))
  {
    hide ExpandHrp;
    var n := |g|;
    var x, y := ExpandHrp(g), ExpandHrp(h);
    if p < n {
      ExpandDiffers(g, h, p);
    } else if p == n {
      MiddleSame(g, h);
    } else if p < 2 * n + 1 {
      ExpandDiffers(g, h, p - (n + 1));
      if x[p] != y[p] { assert p - (n + 1) in Differing(g, h); }
    } else if v[p - (2 * n + 1)] != w[p - (2 * n + 1)] {
      assert p - (2 * n + 1) in Bch.Errors(v, w);
    }
  }

  lemma MiddleSame(g: string, h: string)
    requires |g| == |h|
    ensures ExpandHrp(g)[|g|] == ExpandHrp(h)[|h|]
  {
  }

  lemma UnionSize(a: set<nat>, b: set<nat>)
    ensures |a + b| <= |a| + |b|
    ensures a !! b ==> |a + b| == |a| + |b|
  {
    assert a + b == a + (b - a);
    assert b == (b - a) + (b * a);
  }

  lemma SubsetSize(a: set<nat>, b: set<nat>)
    requires a <= b
    ensures |a| <= |b|
  {
    assert b == a + (b - a);
  }

  lemma SeenCount(g: string, h: string, v: seq<bv32>, w: seq<bv32>)
    requires |g| == |h| && |v| == |w| && IsBytes(g) && IsBytes(h) && IsData(v) && IsData(w)
    ensures |Bch.Errors(ExpandHrp(g) + v, ExpandHrp(h) + w)| <= 2 * |Differing(g, h)| + |Bch.Errors(v, w)|
  {
    hide ExpandHrp, IsBytes, IsData;
    var d, e, n := Differing(g, h), Bch.Errors(v, w), |g|;
    var low, data := Bch.Later(d, n + 1), Bch.Later(e, 2 * n + 1);
    forall p | p in Bch.Errors(ExpandHrp(g) + v, ExpandHrp(h) + w) ensures p in d + low + data {
      SeenErrors(g, h, v, w, p);
    }
    SubsetSize(Bch.Errors(ExpandHrp(g) + v, ExpandHrp(h) + w), d + low + data);
    UnionSize(d, low);
    UnionSize(d + low, data);
    Bch.LaterSize(d, n + 1);
    Bch.LaterSize(e, 2 * n + 1);
  }

  /** Accepted lists that the checksum sees as the same have the same prefix and values. */
  lemma SeenSame(g: string, h: string, v: seq<bv32>, w: seq<bv32>)
    requires |g| == |h| && |v| == |w| && IsBytes(g) && IsBytes(h) && ExpandHrp(g) + v == ExpandHrp(h) + w
    ensures g == h && v == w
  {
    hide ExpandHrp;
    var n := 2 * |g| + 1;
    assert ExpandHrp(g) == (ExpandHrp(g) + v)[..n] && ExpandHrp(h) == (ExpandHrp(h) + w)[..n];
    assert v == (ExpandHrp(g) + v)[n..] && w == (ExpandHrp(h) + w)[n..];
    ExpandInjective(g, h);
  }

  lemma PartsApart(e: Encoding, g: string, h: string, v: seq<bv32>, w: seq<bv32>)
    requires |g| == |h| && |v| == |w| && 2 * |g| + 1 + |v| <= 1023
    requires IsBytes(g) && IsBytes(h) && IsData(v) && IsData(w)
    requires VerifyChecksum(g, v) == Some(e) && VerifyChecksum(h, w) == Some(e)
    ensures (g == h && v == w) || 2 * |Differing(g, h)| + |Bch.Errors(v, w)| >= 4
  {
    hide ExpandHrp, Remainder, IsBytes, IsData, Differing;
    var s, t := ExpandHrp(g) + v, ExpandHrp(h) + w;
    forall p | 0 <= p < |s| ensures s[p] == t[p] || (s[p] < 32 && t[p] < 32) { SeenErrors(g, h, v, w, p); }
    Bch.ListsApart(s, t);
    if s == t { SeenSame(g, h, v, w); } else { SeenCount(g, h, v, w); }
  }

  // ---------------------------------------------------------------- accepted strings

  lemma LowerByte(c: char)
    requires 33 <= c as int <= 126
    ensures LowerCase(c) as int < 256
  {
  }

  lemma LowerBytes(s: string, n: nat)
    requires CharactersOk(s) && n <= |s|
    ensures IsBytes(Lower(s[..n]))
  {
    hide LowerCase;
    forall k | 0 <= k < n ensures Lower(s[..n])[k] as int < 256 { LowerByte(s[k]); }
  }

  /** What decoding a string makes of its parts. */
  lemma DecodedParts(s: string, pos: int)
    requires Decoded(s).Some? && pos == LastOne(s)
    ensures 0 < pos < |s| <= 90 && s[pos] == '1' && CharactersOk(s) && AllValues(s[pos + 1..])
    ensures VerifyChecksum(Lower(s[..pos]), Values(s[pos + 1..])) == Some(Decoded(s).value.encoding)
  {
    hide VerifyChecksum, Values, AllValues, CharactersOk, LowerCase, Lower, LastOne;
  }

  /** Strings of the same length with the separator at the same place, both accepted for one encoding, are the same but
      for case, or differ in at least four characters, where one of the prefix counts twice. */
  lemma DecodedApart(s: string, t: string)
    requires |s| == |t| && Decoded(s).Some? && Decoded(t).Some? && LastOne(s) == LastOne(t)
    requires Decoded(s).value.encoding == Decoded(t).value.encoding
    ensures var d := Differing(Lower(s), Lower(t));
            var inPrefix := set p | p in d && p < LastOne(s);
            Lower(s) == Lower(t) || |d| + |inPrefix| >= 4
  {
    hide VerifyChecksum, Decoded, Values, AllValues, LowerCase, Lower, IsBytes, IsData, Differing, Bch.Errors, LastOne,
         CharactersOk;
    var pos := LastOne(s);
    DecodedParts(s, pos);
    DecodedParts(t, pos);
    LowerBytes(s, pos);
    LowerBytes(t, pos);
    LowerParts(s, pos);
    LowerParts(t, pos);
    var g, h, u, w := Lower(s[..pos]), Lower(t[..pos]), s[pos + 1..], t[pos + 1..];
    ValuesAreData(u);
    ValuesAreData(w);
    PartsApart(Decoded(s).value.encoding, g, h, Values(u), Values(w));
    if g == h && Values(u) == Values(w) {
      assert Lower(u) == Chars(Values(u)) == Chars(Values(w)) == Lower(w);
    } else {
      DifferingIs(g, h, u, w);
      PrefixPlaces(g, h, pos);
      DistanceIs(Differing(Lower(s), Lower(t)), Differing(g, h), Bch.Errors(Values(u), Values(w)), pos);
    }
  }

  lemma PrefixPlaces(g: string, h: string, pos: nat)
    requires |g| == |h| == pos
    ensures forall p :: p in Differing(g, h) ==> p < pos
  {
  }

  lemma DistanceIs(d: set<nat>, prefix: set<nat>, data: set<nat>, pos: nat)
    requires d == prefix + Bch.Later(data, pos + 1) && forall p :: p in prefix ==> p < pos
    ensures |d| == |prefix| + |data| && (set p | p in d && p < pos) == prefix
  {
    Bch.LaterSize(data, pos + 1);
    UnionSize(prefix, Bch.Later(data, pos + 1));
  }
}
