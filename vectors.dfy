/**
 * The vector helpers of 04-vector-operations: a colour filter, the tail of
 * a vector, and the slice-pattern classification in `main`.
 */
module Vectors {

  datatype Color = Red | Green | Blue

  /**
   * `filter_non_red_colors`: despite the name, the `filter` keeps the
   * elements that are `Red`, in order.
   */
  function FilterNonRedColors(colors: seq<Color>): (kept: seq<Color>)
    ensures forall k :: 0 <= k < |kept| ==> kept[k] == Red
    ensures |kept| == multiset(colors)[Red]
  {
    if colors == [] then []
    else
      assert colors == [colors[0]] + colors[1..];
      (if colors[0] == Red then [Red] else []) + FilterNonRedColors(colors[1..])
  }

  /** Filtering a concatenation filters each part. */
  lemma {:induction false} FilterDistributes(a: seq<Color>, b: seq<Color>)
    ensures FilterNonRedColors(a + b) == FilterNonRedColors(a) + FilterNonRedColors(b)
  {
    if a != [] {
      assert (a + b)[1..] == a[1..] + b;
      FilterDistributes(a[1..], b);
    }
  }

  /** Filtering twice keeps what filtering once kept. */
  lemma {:induction false} FilterIdempotent(colors: seq<Color>)
    ensures FilterNonRedColors(FilterNonRedColors(colors)) == FilterNonRedColors(colors)
  {
    if colors != [] {
      var head := if colors[0] == Red then [Red] else [];
      FilterDistributes(head, FilterNonRedColors(colors[1..]));
      FilterIdempotent(colors[1..]);
    }
  }

  /** The colours of `main`: only the first survives. */
  lemma FilterExample()
    ensures FilterNonRedColors([Red, Green, Blue]) == [Red]
  {
    assert [Red, Green, Blue][1..] == [Green, Blue];
    assert [Green, Blue][1..] == [Blue];
  }

  /** `get_all_but_first`: everything after the first element; `get(1..)` is `None` on an empty vector, so it panics there. */
  function GetAllButFirst(nums: seq<int>): (rest: seq<int>)
    requires |nums| >= 1
    ensures |rest| == |nums| - 1
    ensures [nums[0]] + rest == nums
  {
    nums[1..]
  }

  /** The four arms of the slice `match` in `main`. */
  datatype Shape = StartsWithOne | EndsWithTwo | Empty | SomethingElse

  /** The slice patterns `[1, ..]`, `[.., 2]`, `[]` and `_`, tried in that order. */
  function Classify(nums: seq<int>): (shape: Shape)
    ensures shape == StartsWithOne <==> |nums| >= 1 && nums[0] == 1
    ensures shape == EndsWithTwo <==> |nums| >= 1 && nums[0] != 1 && nums[|nums| - 1] == 2
    ensures shape == Empty <==> nums == []
    ensures shape == SomethingElse <==> |nums| >= 1 && nums[0] != 1 && nums[|nums| - 1] != 2
  {
    if |nums| >= 1 && nums[0] == 1 then StartsWithOne
    else if |nums| >= 1 && nums[|nums| - 1] == 2 then EndsWithTwo
    else if nums == [] then Empty
    else SomethingElse
  }

  /** The line `main` prints for each arm. */
  function Message(shape: Shape): string
  {
    match shape
    case StartsWithOne => "starts with 1"
    case EndsWithTwo => "ends with 2"
    case Empty => "empty vector"
    case SomethingElse => "something else"
  }

  /** The first matching arm wins: `[1, 2]` starts with 1 although it also ends with 2; `main`'s `[-1, 0, 1]` is something else. */
  lemma ClassifyExamples()
    ensures Message(Classify([1, 2])) == "starts with 1"
    ensures Message(Classify([2])) == "ends with 2"
    ensures Message(Classify([-1, 0, 1])) == "something else"
    ensures GetAllButFirst([-1, 0, 1]) == [0, 1]
  {
  }
}
