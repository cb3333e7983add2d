/** The id generator of lib/utils.ts: eight characters, a letter followed by seven
    letters or digits, each picked by `randInt` from a value of `Math.random()`. */
module Utils {
  import opened Strings

  /** `ALPHABET_1`: `A` to `Z`, then `a` to `z`. */
  const Alphabet1: string := CharRange('A', 26) + CharRange('a', 26)
  /** `ALPHABET_2`: the first alphabet followed by `0` to `9`. */
  const Alphabet2: string := Alphabet1 + CharRange('0', 10)

  /** The length of `new Array(8)` in `guid`. */
  const GuidLength: nat := 8

  predicate IsLetter(c: char) {
    'A' <= c <= 'Z' || 'a' <= c <= 'z'
  }

  /** The `n` consecutive code points starting at `lo`. */
  function CharRange(lo: char, n: nat): (r: string)
    requires lo as int + n <= 0xD800
    ensures |r| == n
    ensures forall k :: 0 <= k < n ==> r[k] as int == lo as int + k
  {
    seq(n, k requires 0 <= k < n => (lo as int + k) as char)
  }

  lemma InCharRange(lo: char, n: nat, c: char)
    requires lo as int + n <= 0xD800 && c in CharRange(lo, n)
    ensures lo as int <= c as int < lo as int + n
  {
  }

  /** The first alphabet is the 52 ASCII letters, from `A` to `z`. */
  lemma Alphabet1Letters()
    ensures |Alphabet1| == 52 && Alphabet1[0] == 'A' && Alphabet1[51] == 'z'
    ensures forall c :: c in Alphabet1 ==> IsLetter(c)
  {
    forall c | c in Alphabet1
      ensures IsLetter(c)
    {
      if c in CharRange('A', 26) {
        InCharRange('A', 26, c);
      } else {
        InCharRange('a', 26, c);
      }
    }
  }

  /** The second alphabet adds the ten ASCII digits, ending in `9`. */
  lemma Alphabet2Alphanumerics()
    ensures |Alphabet2| == 62 && Alphabet2[52] == '0' && Alphabet2[61] == '9'
    ensures forall c :: c in Alphabet2 ==> IsLetter(c) || IsDigit(c)
  {
    Alphabet1Letters();
    forall c | c in Alphabet2
      ensures IsLetter(c) || IsDigit(c)
    {
      if c !in Alphabet1 {
        InCharRange('0', 10, c);
      }
    }
  }

  /** A value of `Math.random()`: the rational `num / den`, at least 0 and below 1. */
  datatype Fraction = Fraction(num: nat, den: nat)

  type UnitFraction = f: Fraction | f.num < f.den witness Fraction(0, 1)

  lemma ScaledBelow(num: nat, den: nat, max: nat)
    requires num < den
    ensures max > 0 ==> num * max / den < max
  {
    if max > 0 {
      assert num * max < den * max;
    }
  }

  lemma FloorDivBounds(a: nat, d: nat)
    requires d > 0
    ensures 0 <= a / d
    ensures (a / d) * d <= a < (a / d + 1) * d
  {
    var q, m := a / d, a % d;
    assert a == q * d + m;
    assert (q + 1) * d == q * d + d;
  }

  /** `randInt(max)`: `Math.floor(Math.random() * max)`, an index below `max`. */
  function RandInt(max: nat, f: UnitFraction): (r: nat)
    ensures max > 0 ==> r < max
    ensures r * f.den <= f.num * max < (r + 1) * f.den
  {
    FloorDivBounds(f.num * max, f.den);
    ScaledBelow(f.num, f.den, max);
    f.num * max / f.den
  }

  lemma MulCancelLeq(a: int, b: int, c: int)
    requires c > 0 && a * c <= b * c
    ensures a <= b
  {
    assert (b - a) * c >= 0;
  }

  lemma MulCancelLess(a: int, b: int, c: int)
    requires c > 0 && a * c < b * c
    ensures a < b
  {
    assert (b - a) * c > 0;
  }

  /** Every index below `max` is drawn by some value of `Math.random()`. */
  lemma RandIntReaches(max: nat, i: nat)
    requires i < max
    ensures RandInt(max, Fraction(i, max)) == i
  {
    var r := RandInt(max, Fraction(i, max));
    MulCancelLeq(r, i, max);
    MulCancelLess(i, r + 1, max);
  }

  /** `alphabet[randInt(alphabet.length)]`: a character of the alphabet. */
  function Pick(alphabet: string, f: UnitFraction): (c: char)
    requires |alphabet| > 0
    ensures c in alphabet
  {
    alphabet[RandInt(|alphabet|, f)]
  }

  /** The id that `guid` builds when its k-th call of `Math.random()` returns `random(k)`. */
  function GuidChars(random: nat -> UnitFraction): (id: string)
    ensures IsGuidShaped(id)
  {
    var rest := seq(GuidLength - 1, k requires 0 <= k < GuidLength - 1 => Pick(Alphabet2, random(k + 1)));
    assert forall k :: 0 <= k < |rest| ==> rest[k] in Alphabet2 by {
      forall k | 0 <= k < |rest|
        ensures rest[k] in Alphabet2
      {
        assert rest[k] == Pick(Alphabet2, random(k + 1));
      }
    }
    [Pick(Alphabet1, random(0))] + rest
  }

  /** The k-th character of the id is drawn with the k-th value of `Math.random()`. */
  lemma GuidCharsAt(random: nat -> UnitFraction, k: nat)
    requires k < GuidLength
    ensures |GuidChars(random)| == GuidLength
    ensures GuidChars(random)[k] == if k == 0 then Pick(Alphabet1, random(0)) else Pick(Alphabet2, random(k))
  {
  }

  /** `guid`: fills an array of eight characters, the first from the letters, the rest
      from the letters and digits. */
  method Guid(random: nat -> UnitFraction) returns (id: string)
    ensures id == GuidChars(random)
  {
    var chars := new char[GuidLength];
    chars[0] := Pick(Alphabet1, random(0));
    GuidCharsAt(random, 0);
    for i := 1 to chars.Length
      invariant forall k :: 0 <= k < i ==> chars[k] == GuidChars(random)[k]
    {
      chars[i] := Pick(Alphabet2, random(i));
      GuidCharsAt(random, i);
    }
    id := chars[..];
  }

  predicate IsGuidShaped(s: string) {
    |s| == GuidLength && s[0] in Alphabet1 && forall k :: 1 <= k < |s| ==> s[k] in Alphabet2
  }

  /** Every id starts with an ASCII letter and continues with ASCII letters or digits. */
  lemma GuidShape(random: nat -> UnitFraction)
    ensures IsGuidShaped(GuidChars(random))
    ensures IsLetter(GuidChars(random)[0])
    ensures forall k :: 1 <= k < GuidLength ==> IsLetter(GuidChars(random)[k]) || IsDigit(GuidChars(random)[k])
  {
    Alphabet1Letters();
    Alphabet2Alphanumerics();
  }

  function IndexOf(s: string, c: char): (i: nat)
    requires c in s
    ensures i < |s| && s[i] == c
  {
    if s[0] == c then 0 else 1 + IndexOf(s[1..], c)
  }

  /** The k-th draw that makes `guid` produce `s`. */
  function Draw(s: string, k: nat): UnitFraction {
    if IsGuidShaped(s) && k == 0 then Fraction(IndexOf(Alphabet1, s[0]), |Alphabet1|)
    else if IsGuidShaped(s) && k < GuidLength then Fraction(IndexOf(Alphabet2, s[k]), |Alphabet2|)
    else Fraction(0, 1)
  }

  /** Conversely, every string of that shape is the id of some sequence of draws. */
  lemma GuidReachesEveryShapedString(s: string)
    requires IsGuidShaped(s)
    ensures GuidChars((k: nat) => Draw(s, k)) == s
  {
    var random := (k: nat) => Draw(s, k);
    var id := GuidChars(random);
    forall k | 0 <= k < GuidLength
      ensures id[k] == s[k]
    {
      GuidCharsAt(random, k);
      if k == 0 {
        RandIntReaches(|Alphabet1|, IndexOf(Alphabet1, s[0]));
      } else {
        RandIntReaches(|Alphabet2|, IndexOf(Alphabet2, s[k]));
      }
    }
    GuidCharsAt(random, 0);
  }
}
