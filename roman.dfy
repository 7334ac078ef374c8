/**
 * `roman_to_arabic` of 07-roman-numerals: trim, upper-case, look every
 * character up in the numeral table, then add each value unless it is
 * smaller than the value after it, in which case subtract it.
 */
module Roman {
  import opened Text

  /** The lookup table of the source's `HashMap`. */
  const Conversions: map<char, int> :=
    map['I' := 1, 'V' := 5, 'X' := 10, 'L' := 50, 'C' := 100, 'D' := 500, 'M' := 1000]

  predicate Blank(s: string)
  {
    forall k :: 0 <= k < |s| ==> IsWhitespace(s[k])
  }

  // ---------------------------------------------------------------------
  // Trimming
  // ---------------------------------------------------------------------

  /** `str::trim_start` */
  function TrimStart(s: string): (r: string)
    ensures |r| <= |s| && r == s[|s| - |r|..]
    ensures Blank(s[..|s| - |r|])
    ensures r == [] || !IsWhitespace(r[0])
  {
    if s != [] && IsWhitespace(s[0]) then
      var r := TrimStart(s[1..]);
      assert s[1..][..|s| - 1 - |r|] == s[1..|s| - |r|];
      r
    else s
  }

  /** `str::trim_end` */
  function TrimEnd(s: string): (r: string)
    ensures |r| <= |s| && r == s[..|r|]
    ensures Blank(s[|r|..])
    ensures r == [] || !IsWhitespace(r[|r| - 1])
  {
    if s != [] && IsWhitespace(s[|s| - 1]) then
      var r := TrimEnd(s[..|s| - 1]);
      assert s[..|s| - 1][|r|..] == s[|r|..|s| - 1];
      assert forall k :: |r| <= k < |s| - 1 ==> IsWhitespace(s[k]) by {
        assert forall k :: |r| <= k < |s| - 1 ==> s[k] == s[..|s| - 1][|r|..][k - |r|];
      }
      r
    else s
  }

  /** `str::trim`: drops leading and trailing whitespace. */
  function Trim(s: string): string
  {
    TrimEnd(TrimStart(s))
  }

  // ---------------------------------------------------------------------
  // Case mapping
  // ---------------------------------------------------------------------

  /**
   * `char::to_uppercase` on the characters that matter here: ASCII letters,
   * and the dotless `ı` whose upper case is `I`. Every other character maps
   * to itself, which for this function is exact enough: no other character
   * has a numeral as its upper case, so the lookup fails either way.
   */
  function UpperChar(c: char): char
  {
    if 'a' <= c <= 'z' then (c as int - 32) as char
    else if c == 'ı' then 'I'
    else c
  }

  /** ASCII `to_lowercase`, used to state case insensitivity. */
  function LowerChar(c: char): char
  {
    if 'A' <= c <= 'Z' then (c as int + 32) as char else c
  }

  function MapChars(s: string, f: char -> char): (r: string)
    ensures |r| == |s| && forall k :: 0 <= k < |s| ==> r[k] == f(s[k])
  {
    seq(|s|, k requires 0 <= k < |s| => f(s[k]))
  }

  /** `str::to_uppercase` */
  function Upper(s: string): string
  {
    MapChars(s, UpperChar)
  }

  function Lower(s: string): string
  {
    MapChars(s, LowerChar)
  }

  // ---------------------------------------------------------------------
  // The conversion pipeline
  // ---------------------------------------------------------------------

  /** The characters `roman_to_arabic` looks up: trimmed and upper-cased. */
  function Numerals(s: string): string
  {
    Upper(Trim(s))
  }

  predicate AllNumerals(t: string)
  {
    forall k :: 0 <= k < |t| ==> t[k] in Conversions
  }

  /** The inputs on which the table lookup's `unwrap` does not panic. */
  predicate InDomain(s: string)
  {
    AllNumerals(Numerals(s))
  }

  /** `.map(|x| *conversions.get(&x).unwrap())` */
  function Values(t: string): (nums: seq<int>)
    requires AllNumerals(t)
    ensures |nums| == |t| && forall k :: 0 <= k < |t| ==> nums[k] == Conversions[t[k]]
  {
    seq(|t|, k requires 0 <= k < |t| => Conversions[t[k]])
  }

  /** `nums.windows(2).map(|group| group[0] >= group[1])` */
  function Windows(nums: seq<int>): (r: seq<bool>)
    ensures |r| == if |nums| < 2 then 0 else |nums| - 1
  {
    if |nums| < 2 then [] else [nums[0] >= nums[1]] + Windows(nums[1..])
  }

  /** `Iterator::zip` */
  function Zip(nums: seq<int>, flags: seq<bool>): (r: seq<(int, bool)>)
    ensures |r| == if |nums| < |flags| then |nums| else |flags|
  {
    if nums == [] || flags == [] then [] else [(nums[0], flags[0])] + Zip(nums[1..], flags[1..])
  }

  /** The `fold`: add a value whose flag is set, subtract it otherwise. */
  function Fold(acc: int, pairs: seq<(int, bool)>): int
    decreases |pairs|
  {
    if pairs == [] then acc
    else Fold(if pairs[0].1 then acc + pairs[0].0 else acc - pairs[0].0, pairs[1..])
  }

  /**
   * `roman_to_arabic`: the pipeline computes the signed sum of the
   * looked-up values of the trimmed, upper-cased input.
   */
  function RomanToArabic(s: string): (r: int)
    requires InDomain(s)
    ensures r == Signed(Values(Numerals(s)))
  {
    var nums := Values(Numerals(s));
    if nums == [] then 0
    else
      FoldIsSigned(0, nums);
      Fold(0, Zip(nums, Windows(nums) + [true]))
  }

  // ---------------------------------------------------------------------
  // Reference definition and its properties
  // ---------------------------------------------------------------------

  /**
   * The subtractive rule stated per numeral: a value counts negatively
   * exactly when it is strictly less than the value right after it; the
   * last value always counts positively.
   */
  function Signed(nums: seq<int>): int
  {
    if nums == [] then 0
    else (if |nums| >= 2 && nums[0] < nums[1] then -nums[0] else nums[0]) + Signed(nums[1..])
  }

  function Sum(nums: seq<int>): int
  {
    if nums == [] then 0 else nums[0] + Sum(nums[1..])
  }

  lemma {:induction false} FoldIsSigned(acc: int, nums: seq<int>)
    requires nums != []
    ensures Fold(acc, Zip(nums, Windows(nums) + [true])) == acc + Signed(nums)
    decreases |nums|
  {
    if |nums| == 1 {
      assert Zip(nums, Windows(nums) + [true]) == [(nums[0], true)];
    } else {
      var flag := nums[0] >= nums[1];
      assert Windows(nums) + [true] == [flag] + (Windows(nums[1..]) + [true]);
      var next := if flag then acc + nums[0] else acc - nums[0];
      FoldIsSigned(next, nums[1..]);
    }
  }

  /** A non-increasing run of values is simply added up. */
  lemma {:induction false} NonIncreasingIsSum(nums: seq<int>)
    requires forall k :: 0 <= k < |nums| - 1 ==> nums[k] >= nums[k + 1]
    ensures Signed(nums) == Sum(nums)
  {
    if nums != [] {
      NonIncreasingIsSum(nums[1..]);
    }
  }

  // ---------------------------------------------------------------------
  // Whitespace and case
  // ---------------------------------------------------------------------

  lemma {:induction false} TrimStartMap(s: string, f: char -> char)
    requires forall c :: IsWhitespace(f(c)) <==> IsWhitespace(c)
    ensures TrimStart(MapChars(s, f)) == MapChars(TrimStart(s), f)
  {
    if s != [] && IsWhitespace(s[0]) {
      assert MapChars(s, f)[1..] == MapChars(s[1..], f);
      TrimStartMap(s[1..], f);
    }
  }

  lemma {:induction false} TrimEndMap(s: string, f: char -> char)
    requires forall c :: IsWhitespace(f(c)) <==> IsWhitespace(c)
    ensures TrimEnd(MapChars(s, f)) == MapChars(TrimEnd(s), f)
  {
    if s != [] && IsWhitespace(s[|s| - 1]) {
      assert MapChars(s, f)[..|s| - 1] == MapChars(s[..|s| - 1], f);
      TrimEndMap(s[..|s| - 1], f);
    }
  }

  lemma ComposeMaps(s: string, f: char -> char, g: char -> char, h: char -> char)
    requires forall c :: g(f(c)) == h(c)
    ensures MapChars(MapChars(s, f), g) == MapChars(s, h)
  {
  }

  lemma LowerKeepsWhitespace()
    ensures forall c :: IsWhitespace(LowerChar(c)) <==> IsWhitespace(c)
  {
    forall c
      ensures IsWhitespace(LowerChar(c)) <==> IsWhitespace(c)
    {
      if 'A' <= c <= 'Z' {
        assert 'a' <= LowerChar(c) <= 'z';
      }
    }
  }

  lemma UpperOfLower()
    ensures forall c :: UpperChar(LowerChar(c)) == UpperChar(c)
  {
    forall c
      ensures UpperChar(LowerChar(c)) == UpperChar(c)
    {
      if 'A' <= c <= 'Z' {
        assert 'a' <= LowerChar(c) <= 'z';
      }
    }
  }

  /** Trimming commutes with lower-casing. */
  lemma TrimLower(s: string)
    ensures Trim(Lower(s)) == Lower(Trim(s))
  {
    LowerKeepsWhitespace();
    TrimStartMap(s, LowerChar);
    TrimEndMap(TrimStart(s), LowerChar);
  }

  /** Writing the numerals in lower case changes nothing. */
  lemma LowercaseIgnored(s: string)
    requires InDomain(s)
    ensures InDomain(Lower(s)) && RomanToArabic(Lower(s)) == RomanToArabic(s)
  {
    var t := Trim(s);
    TrimLower(s);
    assert Numerals(Lower(s)) == Numerals(s) by {
      UpperOfLower();
      ComposeMaps(t, LowerChar, UpperChar, UpperChar);
    }
  }

  lemma {:induction false} TrimStartPadded(w: string, t: string)
    requires Blank(w)
    requires t == [] || !IsWhitespace(t[0])
    ensures TrimStart(w + t) == t
  {
    if w != [] {
      assert (w + t)[1..] == w[1..] + t;
      TrimStartPadded(w[1..], t);
    }
  }

  lemma {:induction false} TrimEndPadded(t: string, w: string)
    requires Blank(w)
    requires t == [] || !IsWhitespace(t[|t| - 1])
    ensures TrimEnd(t + w) == t
  {
    if w != [] {
      assert (t + w)[..|t + w| - 1] == t + w[..|w| - 1];
      TrimEndPadded(t, w[..|w| - 1]);
    }
  }

  /** Trimming removes exactly the blank margins around a string with non-blank ends. */
  lemma TrimAround(w1: string, t: string, w2: string)
    requires Blank(w1) && Blank(w2)
    requires t == [] || (!IsWhitespace(t[0]) && !IsWhitespace(t[|t| - 1]))
    ensures Trim(w1 + t + w2) == t
  {
    assert w1 + t + w2 == w1 + (t + w2);
    if t == [] {
      assert Blank(w1 + w2);
      TrimStartPadded(w1 + w2, []);
      assert w1 + w2 + [] == w1 + t + w2;
    } else {
      TrimStartPadded(w1, t + w2);
      TrimEndPadded(t, w2);
    }
  }

  lemma NumeralsAreFixed(t: string)
    requires AllNumerals(t)
    ensures t == [] || (!IsWhitespace(t[0]) && !IsWhitespace(t[|t| - 1]))
    ensures Upper(t) == t
  {
    assert forall k :: 0 <= k < |t| ==> UpperChar(t[k]) == t[k];
  }

  lemma {:induction false} TrimStartBlank(w: string, x: string)
    requires Blank(w)
    ensures TrimStart(w + x) == TrimStart(x)
  {
    if w != [] {
      assert (w + x)[0] == w[0];
      assert (w + x)[1..] == w[1..] + x;
      TrimStartBlank(w[1..], x);
    } else {
      assert w + x == x;
    }
  }

  lemma {:induction false} TrimEndBlank(x: string, w: string)
    requires Blank(w)
    ensures TrimEnd(x + w) == TrimEnd(x)
  {
    if w != [] {
      assert (x + w)[|x + w| - 1] == w[|w| - 1];
      assert (x + w)[..|x + w| - 1] == x + w[..|w| - 1];
      TrimEndBlank(x, w[..|w| - 1]);
    } else {
      assert x + w == x;
    }
  }

  /** A blank margin after any string is trimmed away. */
  lemma {:induction false} TrimAppendBlank(s: string, w: string)
    requires Blank(w)
    ensures Trim(s + w) == Trim(s)
  {
    if s == [] {
      assert s + w == w + [];
      TrimStartBlank(w, []);
    } else if IsWhitespace(s[0]) {
      assert (s + w)[0] == s[0];
      assert (s + w)[1..] == s[1..] + w;
      TrimAppendBlank(s[1..], w);
    } else {
      assert (s + w)[0] == s[0];
      TrimEndBlank(s, w);
    }
  }

  /** A blank margin before any string is trimmed away. */
  lemma TrimPrependBlank(w: string, x: string)
    requires Blank(w)
    ensures Trim(w + x) == Trim(x)
  {
    TrimStartBlank(w, x);
  }

  lemma Associative(a: string, b: string, c: string)
    ensures a + b + c == a + (b + c)
  {
  }

  /** Blank margins added around any string are exactly what trimming removes. */
  lemma TrimPadded(w1: string, s: string, w2: string)
    requires Blank(w1) && Blank(w2)
    ensures Trim(w1 + s + w2) == Trim(s)
  {
    Associative(w1, s, w2);
    TrimPrependBlank(w1, s + w2);
    TrimAppendBlank(s, w2);
  }

  /** Leading and trailing whitespace around any input is ignored. */
  lemma PaddingIgnored(w1: string, s: string, w2: string)
    requires Blank(w1) && Blank(w2)
    ensures InDomain(w1 + s + w2) <==> InDomain(s)
    ensures InDomain(s) ==> RomanToArabic(w1 + s + w2) == RomanToArabic(s)
  {
    TrimPadded(w1, s, w2);
  }

  /** An empty or all-whitespace string converts to 0. */
  lemma BlankIsZero(s: string)
    requires Blank(s)
    ensures InDomain(s) && RomanToArabic(s) == 0
  {
    TrimStartPadded(s, []);
    assert s + [] == s;
  }

  // ---------------------------------------------------------------------
  // The source's test vectors
  // ---------------------------------------------------------------------

  lemma UpperNumerals(t: string)
    requires AllNumerals(t)
    ensures InDomain(t) && Numerals(t) == t
  {
    assert Trim(t) == t by {
      NumeralsAreFixed(t);
      TrimAround([], t, []);
      assert [] + t + [] == t;
    }
    assert Upper(t) == t by {
      NumeralsAreFixed(t);
    }
  }

  lemma SingleExample()
    ensures InDomain("I") && RomanToArabic("I") == 1
  {
    UpperNumerals("I");
    assert Values("I") == [1];
  }

  lemma RepeatedExample()
    ensures InDomain("III") && RomanToArabic("III") == 3
  {
    UpperNumerals("III");
    assert Values("III") == [1, 1, 1];
  }

  lemma FiveExample()
    ensures InDomain("V") && RomanToArabic("V") == 5
  {
    UpperNumerals("V");
    assert Values("V") == [5];
  }

  lemma ValuesOfAllNumerals()
    ensures AllNumerals("MDCLXVI") && Values("MDCLXVI") == [1000, 500, 100, 50, 10, 5, 1]
  {
  }

  lemma SumOfAllNumerals()
    ensures Signed([1000, 500, 100, 50, 10, 5, 1]) == 1666
  {
    var nums := [1000, 500, 100, 50, 10, 5, 1];
    assert Signed(nums[6..]) == 1;
    assert Signed(nums[5..]) == 6 by { assert nums[5..][1..] == nums[6..]; }
    assert Signed(nums[4..]) == 16 by { assert nums[4..][1..] == nums[5..]; }
    assert Signed(nums[3..]) == 66 by { assert nums[3..][1..] == nums[4..]; }
    assert Signed(nums[2..]) == 166 by { assert nums[2..][1..] == nums[3..]; }
    assert Signed(nums[1..]) == 666 by { assert nums[1..][1..] == nums[2..]; }
  }

  lemma AllNumeralsExample()
    ensures InDomain("MDCLXVI") && RomanToArabic("MDCLXVI") == 1000 + 500 + 100 + 50 + 10 + 5 + 1
  {
    ValuesOfAllNumerals();
    UpperNumerals("MDCLXVI");
    SumOfAllNumerals();
  }

  lemma SubtractiveExample()
    ensures InDomain("IX") && RomanToArabic("IX") == 9
  {
    UpperNumerals("IX");
    assert Values("IX") == [1, 10];
  }

  lemma SixteenExample()
    ensures InDomain("XVI") && RomanToArabic("XVI") == 16
  {
    UpperNumerals("XVI");
    assert Values("XVI") == [10, 5, 1];
  }

  lemma LowerOfSixteen()
    ensures Lower("XVI") == "xvi"
  {
    var l := Lower("XVI");
    assert |l| == 3;
    assert l[0] == LowerChar('X') == 'x';
    assert l[1] == LowerChar('V') == 'v';
    assert l[2] == LowerChar('I') == 'i';
  }

  lemma LowercaseExample()
    ensures InDomain("xvi") && RomanToArabic("xvi") == 16
  {
    LowerOfSixteen();
    SixteenExample();
    LowercaseIgnored("XVI");
  }
}
