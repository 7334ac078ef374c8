/**
 * The four FizzBuzz variants of 01-fizzbuzz, each producing the lines it
 * prints for 1..=100 (a line without its newline).
 */
module FizzBuzz {
  import opened Text

  const Last: nat := 100

  /** The rule stated factor by factor: "fizz" for a multiple of 3, "buzz" for a multiple of 5, both for both. */
  function Expected(i: nat): string
  {
    if i % 3 == 0 && i % 5 == 0 then "fizzbuzz"
    else if i % 3 == 0 then "fizz"
    else if i % 5 == 0 then "buzz"
    else Decimal(i)
  }

  /** A multiple of 15 is exactly a multiple of both 3 and 5. */
  lemma FifteenIsLcm(i: nat)
    ensures i % 15 == 0 <==> i % 3 == 0 && i % 5 == 0
  {
    var q, r := i / 15, i % 15;
    assert i == 15 * q + r;
    assert i % 3 == r % 3 by {
      assert i == 3 * (5 * q) + r;
    }
    assert i % 5 == r % 5 by {
      assert i == 5 * (3 * q) + r;
    }
  }

  /** The if-chain of `basic_version`, `match_version` and `iter_version`, testing 15 first. */
  function Label(i: nat): (line: string)
    ensures line == Expected(i)
  {
    FifteenIsLcm(i);
    if i % 15 == 0 then "fizzbuzz"
    else if i % 3 == 0 then "fizz"
    else if i % 5 == 0 then "buzz"
    else Decimal(i)
  }

  /** `iter_version`: `(1..=100).map(...)`. */
  function IterVersion(): (lines: seq<string>)
    ensures |lines| == Last && forall k :: 0 <= k < Last ==> lines[k] == Expected(k + 1)
  {
    seq(Last, k requires 0 <= k < Last => Label(k + 1))
  }

  /** `basic_version` */
  method BasicVersion() returns (lines: seq<string>)
    ensures lines == IterVersion()
  {
    lines := [];
    for i := 1 to Last + 1
      invariant |lines| == i - 1
      invariant forall k :: 0 <= k < i - 1 ==> lines[k] == Expected(k + 1)
    {
      FifteenIsLcm(i);
      if i % 15 == 0 {
        lines := lines + ["fizzbuzz"];
      } else if i % 3 == 0 {
        lines := lines + ["fizz"];
      } else if i % 5 == 0 {
        lines := lines + ["buzz"];
      } else {
        lines := lines + [Decimal(i)];
      }
    }
  }

  /**
   * `alternate_version`: "fizz" and "buzz" are printed separately onto the
   * same line, and the number only when neither was.
   */
  method AlternateVersion() returns (lines: seq<string>)
    ensures lines == IterVersion()
  {
    lines := [];
    for i := 1 to Last + 1
      invariant |lines| == i - 1
      invariant forall k :: 0 <= k < i - 1 ==> lines[k] == Expected(k + 1)
    {
      var isMultipleOf3 := i % 3 == 0;
      var isMultipleOf5 := i % 5 == 0;
      var line := "";
      if isMultipleOf3 {
        line := line + "fizz";
      }
      if isMultipleOf5 {
        line := line + "buzz";
      }
      if isMultipleOf3 || isMultipleOf5 {
        lines := lines + [line];
      } else {
        lines := lines + [line + Decimal(i)];
      }
    }
  }

  /** `match_version`: guarded match arms, tried in order. */
  method MatchVersion() returns (lines: seq<string>)
    ensures lines == IterVersion()
  {
    lines := [];
    for i := 1 to Last + 1
      invariant |lines| == i - 1
      invariant forall k :: 0 <= k < i - 1 ==> lines[k] == Expected(k + 1)
    {
      FifteenIsLcm(i);
      match (i % 15 == 0, i % 3 == 0, i % 5 == 0)
      case (true, _, _) =>
        lines := lines + ["fizzbuzz"];
      case (false, true, _) =>
        lines := lines + ["fizz"];
      case (false, false, true) =>
        lines := lines + ["buzz"];
      case (false, false, false) =>
        lines := lines + [Decimal(i)];
    }
  }
}
