/**
 * Guest-name assignment of the room coordinator (lib/room-manager.ts, `generateGuestName`):
 * collect the numbers of the participants named `Guest <n>`, sort them ascending, and walk
 * upwards from 1 while the next number matches.
 */
module GuestNames {
  import opened Wrappers
  import opened Text

  const GuestPrefix: string := "Guest "

  /** The number a display name carries: `parseInt(name.replace('Guest ', ''), 10)` for names starting with `Guest `. */
  function GuestNumberOf(name: string): Option<int> {
    if StartsWith(name, GuestPrefix) then ParseInt(name[|GuestPrefix|..]) else None
  }

  /** The guest numbers held by `names`, in the order of the names (map, then filter out `NaN`). */
  function GuestNumbers(names: seq<string>): (r: seq<int>)
    ensures |r| <= |names|
  {
    if names == [] then []
    else
      match GuestNumberOf(names[0])
      case Some(n) => [n] + GuestNumbers(names[1..])
      case None => GuestNumbers(names[1..])
  }

  /** Some name of `names` carries the guest number `n`. */
  ghost predicate Carries(names: seq<string>, n: int) {
    exists i | 0 <= i < |names| :: GuestNumberOf(names[i]) == Some(n)
  }

  /** A number is among the guest numbers exactly when some name carries it. */
  lemma {:induction false} GuestNumbersMembers(names: seq<string>, n: int)
    ensures n in GuestNumbers(names) <==> Carries(names, n)
  {
    if names != [] {
      var rest := names[1..];
      GuestNumbersMembers(rest, n);
      if Carries(rest, n) {
        var i :| 0 <= i < |rest| && GuestNumberOf(rest[i]) == Some(n);
        assert names[i + 1] == rest[i];
      }
      if Carries(names, n) {
        var i :| 0 <= i < |names| && GuestNumberOf(names[i]) == Some(n);
        if i > 0 {
          assert rest[i - 1] == names[i];
          assert Carries(rest, n);
        }
      }
    }
  }

  ghost predicate SortedAsc(xs: seq<int>) {
    forall i, j | 0 <= i < j < |xs| :: xs[i] <= xs[j]
  }

  ghost predicate Distinct(xs: seq<int>) {
    forall i, j | 0 <= i < j < |xs| :: xs[i] != xs[j]
  }

  /** Prepending a value no larger than the head keeps a sorted list sorted. */
  lemma ConsSorted(h: int, t: seq<int>)
    requires SortedAsc(t) && (|t| == 0 || h <= t[0])
    ensures SortedAsc([h] + t)
  {
    var r := [h] + t;
    forall i, j | 0 <= i < j < |r|
      ensures r[i] <= r[j]
    {
      if i == 0 {
        assert r[j] == t[j - 1] && t[0] <= t[j - 1];
      } else {
        assert r[i] == t[i - 1] && r[j] == t[j - 1];
      }
    }
  }

  /** Dropping the head keeps a list sorted, and the head is no larger than the next element. */
  lemma TailSorted(xs: seq<int>)
    requires SortedAsc(xs) && |xs| > 0
    ensures SortedAsc(xs[1..])
    ensures |xs| > 1 ==> xs[0] <= xs[1]
  {
    var t := xs[1..];
    forall i, j | 0 <= i < j < |t|
      ensures t[i] <= t[j]
    {
      assert t[i] == xs[i + 1] && t[j] == xs[j + 1];
    }
  }

  /** Putting the head back in front of the tail with `x` inserted adds `x` to the multiset. */
  lemma ConsMultiset(xs: seq<int>, tail: seq<int>, x: int)
    requires |xs| > 0 && multiset(tail) == multiset(xs[1..]) + multiset{x}
    ensures multiset([xs[0]] + tail) == multiset(xs) + multiset{x}
  {
    assert xs == [xs[0]] + xs[1..];
  }

  /** One step of insertion sort: places `x` into the sorted list `xs`. */
  function Insert(x: int, xs: seq<int>): (r: seq<int>)
    requires SortedAsc(xs)
    ensures |r| == |xs| + 1
    ensures SortedAsc(r)
    ensures multiset(r) == multiset(xs) + multiset{x}
    ensures r[0] == x || (|xs| > 0 && r[0] == xs[0])
  {
    if xs == [] || x <= xs[0] then
      ConsSorted(x, xs);
      [x] + xs
    else
      TailSorted(xs);
      var tail := Insert(x, xs[1..]);
      ConsSorted(xs[0], tail);
      ConsMultiset(xs, tail, x);
      [xs[0]] + tail
  }

  /** `nums.sort((a, b) => a - b)`: an ascending permutation of `xs`. */
  function SortAscending(xs: seq<int>): (r: seq<int>)
    ensures SortedAsc(r)
    ensures multiset(r) == multiset(xs)
  {
    if xs == [] then []
    else
      assert xs == [xs[0]] + xs[1..];
      Insert(xs[0], SortAscending(xs[1..]))
  }

  /**
   * The `for … of` loop: starting at `next`, advance while the current number equals the
   * candidate and stop at the first mismatch. Every number skipped over was present.
   */
  function FirstGap(sorted: seq<int>, next: int): (r: int)
    ensures next <= r <= next + |sorted|
    ensures forall j | next <= j < r :: j in sorted
  {
    if |sorted| == 0 || sorted[0] != next then next
    else
      var r := FirstGap(sorted[1..], next + 1);
      forall j | next <= j < r
        ensures j in sorted
      {
        if j == next {
          assert sorted[0] == j;
        } else {
          assert j in sorted[1..];
          assert sorted == [sorted[0]] + sorted[1..];
        }
      }
      r
  }

  /** The number `generateGuestName` picks for a room whose participants bear `names`. */
  function NextGuestNumber(names: seq<string>): (k: int)
    ensures k >= 1
    ensures forall j | 1 <= j < k :: j in GuestNumbers(names)
  {
    var nums := GuestNumbers(names);
    var sorted := SortAscending(nums);
    var k := FirstGap(sorted, 1);
    forall j | 1 <= j < k
      ensures j in nums
    {
      assert j in sorted;
      assert j in multiset(sorted);
      assert j in multiset(nums);
    }
    k
  }

  /** `` `Guest ${k}` ``. */
  function GuestName(k: nat): string {
    GuestPrefix + NatToString(k)
  }

  /** A generated guest name is read back as the number it was generated from. */
  lemma GuestNameRoundTrip(k: nat)
    ensures GuestNumberOf(GuestName(k)) == Some(k)
  {
    var name := GuestName(k);
    assert name[..|GuestPrefix|] == GuestPrefix;
    assert name[|GuestPrefix|..] == NatToString(k);
    ParseIntOfNatToString(k);
  }

  lemma {:induction false} DistinctHasCountOne(xs: seq<int>, x: int)
    requires Distinct(xs)
    ensures multiset(xs)[x] <= 1
  {
    if xs != [] {
      assert xs == [xs[0]] + xs[1..];
      assert Distinct(xs[1..]);
      DistinctHasCountOne(xs[1..], x);
      if xs[0] == x {
        assert x !in xs[1..];
      }
    }
  }

  lemma DistinctPermutation(xs: seq<int>, ys: seq<int>)
    requires Distinct(xs) && multiset(xs) == multiset(ys)
    ensures Distinct(ys)
  {
    forall i, j | 0 <= i < j < |ys|
      ensures ys[i] != ys[j]
    {
      if ys[i] == ys[j] {
        var v := ys[i];
        assert ys == ys[..i] + [v] + ys[i + 1..j] + [v] + ys[j + 1..];
        assert multiset(ys)[v] >= 2;
        DistinctHasCountOne(xs, v);
        assert false;
      }
    }
  }

  lemma {:induction false} FirstGapIsFree(sorted: seq<int>, next: int)
    requires SortedAsc(sorted) && Distinct(sorted)
    requires forall i | 0 <= i < |sorted| :: sorted[i] >= next
    ensures FirstGap(sorted, next) !in sorted
  {
    if |sorted| == 0 {
    } else if sorted[0] != next {
      assert next !in sorted;
    } else {
      var tail := sorted[1..];
      forall i | 0 <= i < |tail|
        ensures tail[i] >= next + 1
      {
        assert tail[i] == sorted[i + 1] && sorted[0] <= sorted[i + 1] && sorted[0] != sorted[i + 1];
      }
      TailSorted(sorted);
      assert Distinct(tail) by {
        forall i, j | 0 <= i < j < |tail|
          ensures tail[i] != tail[j]
        {
          assert tail[i] == sorted[i + 1] && tail[j] == sorted[j + 1];
        }
      }
      FirstGapIsFree(tail, next + 1);
      var r := FirstGap(tail, next + 1);
      assert FirstGap(sorted, next) == r;
      assert sorted == [next] + tail;
    }
  }

  /**
   * When the guest numbers present are distinct and positive, the walk returns the least
   * positive number not in use (for instance 1, 2 and 4 in use yield 3).
   */
  lemma NextGuestNumberIsLeastUnused(names: seq<string>)
    requires Distinct(GuestNumbers(names))
    requires forall n | n in GuestNumbers(names) :: n >= 1
    ensures NextGuestNumber(names) !in GuestNumbers(names)
    ensures forall j | 1 <= j < NextGuestNumber(names) :: j in GuestNumbers(names)
  {
    var nums := GuestNumbers(names);
    var sorted := SortAscending(nums);
    SortedFreeGap(nums, sorted);
  }

  lemma SortedFreeGap(nums: seq<int>, sorted: seq<int>)
    requires Distinct(nums) && forall n | n in nums :: n >= 1
    requires SortedAsc(sorted) && multiset(sorted) == multiset(nums)
    ensures FirstGap(sorted, 1) !in nums
  {
    DistinctPermutation(nums, sorted);
    forall i | 0 <= i < |sorted|
      ensures sorted[i] >= 1
    {
      assert sorted[i] in multiset(nums);
      assert sorted[i] in nums;
    }
    FirstGapIsFree(sorted, 1);
    var k := FirstGap(sorted, 1);
    assert k !in multiset(sorted);
  }

  lemma GuestZero() ensures GuestNumberOf("Guest 0") == Some(0) {
    assert GuestName(0) == "Guest 0" by { assert DigitChar(0) == '0'; }
    GuestNameRoundTrip(0);
  }

  lemma GuestOne() ensures GuestNumberOf("Guest 1") == Some(1) {
    assert GuestName(1) == "Guest 1" by { assert DigitChar(1) == '1'; }
    GuestNameRoundTrip(1);
  }

  lemma GuestTwo() ensures GuestNumberOf("Guest 2") == Some(2) {
    assert GuestName(2) == "Guest 2" by { assert DigitChar(2) == '2'; }
    GuestNameRoundTrip(2);
  }

  lemma GuestFour() ensures GuestNumberOf("Guest 4") == Some(4) {
    assert GuestName(4) == "Guest 4" by { assert DigitChar(4) == '4'; }
    GuestNameRoundTrip(4);
  }

  lemma GuestNumbersOfThree(a: string, b: string, c: string, x: int, y: int, z: int)
    requires GuestNumberOf(a) == Some(x) && GuestNumberOf(b) == Some(y) && GuestNumberOf(c) == Some(z)
    ensures GuestNumbers([a, b, c]) == [x, y, z]
  {
    assert GuestNumbers([c]) == [z];
    assert [b, c][1..] == [c];
    assert GuestNumbers([b, c]) == [y, z];
    assert [a, b, c][1..] == [b, c];
  }

  lemma GuestNumbersOfTwo(a: string, b: string, x: int, y: int)
    requires GuestNumberOf(a) == Some(x) && GuestNumberOf(b) == Some(y)
    ensures GuestNumbers([a, b]) == [x, y]
  {
    assert GuestNumbers([b]) == [y];
    assert [a, b][1..] == [b];
  }

  lemma OnlyGapOfOneTwoFour(nums: seq<int>, k: int)
    requires nums == [1, 2, 4]
    requires k >= 1 && k !in nums
    requires forall j | 1 <= j < k :: j in nums
    ensures k == 3
  {
    assert 3 < k ==> 3 in nums;
  }

  lemma OneTwoFourDistinctPositive(nums: seq<int>)
    requires nums == [1, 2, 4]
    ensures Distinct(nums) && forall n | n in nums :: n >= 1
  {
  }

  lemma NextGuestNumberOfOneTwoFour(names: seq<string>)
    requires GuestNumbers(names) == [1, 2, 4]
    ensures NextGuestNumber(names) == 3
  {
    OneTwoFourDistinctPositive(GuestNumbers(names));
    NextGuestNumberIsLeastUnused(names);
    OnlyGapOfOneTwoFour(GuestNumbers(names), NextGuestNumber(names));
  }

  /** With 1, 2 and 4 in use the next guest is `Guest 3`. */
  lemma NextGuestNumberExample()
    ensures NextGuestNumber(["Guest 1", "Guest 2", "Guest 4"]) == 3
  {
    GuestOne(); GuestTwo(); GuestFour();
    GuestNumbersOfThree("Guest 1", "Guest 2", "Guest 4", 1, 2, 4);
    NextGuestNumberOfOneTwoFour(["Guest 1", "Guest 2", "Guest 4"]);
  }

  /**
   * The walk can hand out a number that is already held once the numbers in use are not
   * distinct positive integers: with `Guest 0` and `Guest 1` present the walk stops at 0 != 1
   * and answers 1.
   */
  lemma NextGuestNumberMayRepeat()
    ensures NextGuestNumber(["Guest 0", "Guest 1"]) == 1
    ensures 1 in GuestNumbers(["Guest 0", "Guest 1"])
  {
    GuestZero(); GuestOne();
    GuestNumbersOfTwo("Guest 0", "Guest 1", 0, 1);
    assert SortAscending([1]) == [1];
    assert SortAscending([0, 1]) == [0, 1];
  }
}
