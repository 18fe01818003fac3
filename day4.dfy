/** Day 4: the password rules checked for each candidate number. Part 1 asks that
    the digits never decrease and that some digit repeats; part 2 that the digits
    never decrease and that some digit occurs exactly twice. */
module Day4 {

  function FromDigits(ds: seq<int>): int
  {
    if ds == [] then 0 else 10 * FromDigits(ds[..|ds| - 1]) + ds[|ds| - 1]
  }

  /** `[int(d) for d in str(i)]`: the decimal digits, most significant first, with
      no leading zero; reading them back gives the number. */
  function Digits(n: nat): (ds: seq<int>)
    ensures 1 <= |ds|
    ensures forall k :: 0 <= k < |ds| ==> 0 <= ds[k] <= 9
    ensures n > 0 ==> ds[0] > 0
    ensures FromDigits(ds) == n
    decreases n
  {
    if n < 10 then [n]
    else
      var front := Digits(n / 10);
      assert (front + [n % 10])[..|front|] == front;
      front + [n % 10]
  }

  predicate NonDecreasing(s: seq<int>)
  {
    forall i, j :: 0 <= i < j < |s| ==> s[i] <= s[j]
  }

  /** Insertion of one element into a sorted sequence. */
  function Insert(x: int, s: seq<int>): (r: seq<int>)
    ensures |r| == |s| + 1
    ensures r[0] == (if s == [] || x <= s[0] then x else s[0])
    ensures multiset(r) == multiset(s) + multiset{x}
  {
    if s == [] || x <= s[0] then [x] + s
    else
      assert s == [s[0]] + s[1..];
      [s[0]] + Insert(x, s[1..])
  }

  /** Insertion keeps a sequence sorted. */
  lemma {:induction false} InsertKeepsSorted(x: int, s: seq<int>)
    requires NonDecreasing(s)
    ensures NonDecreasing(Insert(x, s))
  {
    if s != [] && x > s[0] {
      InsertKeepsSorted(x, s[1..]);
      var r := Insert(x, s);
      var rest := Insert(x, s[1..]);
      assert r == [s[0]] + rest;
      forall j | 0 < j < |r|
        ensures r[0] <= r[j]
      {
        assert r[j] == rest[j - 1];
        if j > 1 {
          assert rest[0] <= rest[j - 1];
        }
      }
    }
  }

  /** `sorted(numlist)`: a sorted permutation of the digits. */
  function SortedCopy(s: seq<int>): (r: seq<int>)
    ensures NonDecreasing(r)
    ensures multiset(r) == multiset(s)
  {
    if s == [] then []
    else
      assert s == [s[0]] + s[1..];
      InsertKeepsSorted(s[0], SortedCopy(s[1..]));
      Insert(s[0], SortedCopy(s[1..]))
  }

  /** `numlist == sorted(numlist)` holds exactly when the digits never decrease. */
  lemma {:induction false} SortedCopyFixpoint(s: seq<int>)
    ensures SortedCopy(s) == s <==> NonDecreasing(s)
  {
    if NonDecreasing(s) && s != [] {
      var t := s[1..];
      forall i, j | 0 <= i < j < |t|
        ensures t[i] <= t[j]
      {
        assert t[i] == s[i + 1] && t[j] == s[j + 1];
      }
      SortedCopyFixpoint(t);
      assert t == [] || s[0] <= t[0];
      assert Insert(s[0], t) == [s[0]] + t;
      assert s == [s[0]] + t;
    }
  }

  function Elements(s: seq<int>): set<int>
  {
    set x | x in s
  }

  predicate HasRepeat(s: seq<int>)
  {
    exists i, j :: 0 <= i < j < |s| && s[i] == s[j]
  }

  /** `len(set(numlist)) < len(numlist)` holds exactly when some digit repeats. */
  lemma {:induction false} FewerElementsIffRepeat(s: seq<int>)
    ensures |Elements(s)| <= |s|
    ensures |Elements(s)| < |s| <==> HasRepeat(s)
  {
    if s != [] {
      var t := s[1..];
      FewerElementsIffRepeat(t);
      assert Elements(s) == {s[0]} + Elements(t);
      if s[0] in t {
        var j :| 0 <= j < |t| && t[j] == s[0];
        assert s[0] == s[j + 1];
        assert Elements(s) == Elements(t);
      } else {
        assert s[0] !in Elements(t);
        assert |Elements(s)| == |Elements(t)| + 1;
        RepeatInTail(s);
      }
    }
  }

  /** When the first element does not recur, the repeats are those of the tail. */
  lemma RepeatInTail(s: seq<int>)
    requires s != [] && s[0] !in s[1..]
    ensures HasRepeat(s) <==> HasRepeat(s[1..])
  {
    var t := s[1..];
    if HasRepeat(s) {
      var i, j :| 0 <= i < j < |s| && s[i] == s[j];
      assert s[j] == t[j - 1];
      assert i > 0;
      assert t[i - 1] == t[j - 1];
    }
    if HasRepeat(t) {
      var i, j :| 0 <= i < j < |t| && t[i] == t[j];
      assert s[i + 1] == s[j + 1];
    }
  }

  /** In digits that never decrease, a repeated digit repeats at adjacent places. */
  lemma SortedRepeatIsAdjacent(s: seq<int>)
    requires NonDecreasing(s)
    ensures HasRepeat(s) <==> exists k :: 0 <= k < |s| - 1 && s[k] == s[k + 1]
  {
    if HasRepeat(s) {
      var i, j :| 0 <= i < j < |s| && s[i] == s[j];
      assert s[i] <= s[i + 1] <= s[j];
    }
    if exists k :: 0 <= k < |s| - 1 && s[k] == s[k + 1] {
      var k :| 0 <= k < |s| - 1 && s[k] == s[k + 1];
      assert 0 <= k < k + 1 < |s|;
    }
  }

  /** The rule `day4_part1` checks for each candidate number: the digits equal their
      sorted copy and there are fewer distinct digits than digits. */
  predicate MeetsPart1(n: nat)
  {
    var ds := Digits(n);
    ds == SortedCopy(ds) && |Elements(ds)| < |ds|
  }

  /** The part-1 rule means: digits never decrease and two adjacent digits are equal. */
  lemma Part1Meaning(n: nat)
    ensures MeetsPart1(n) <==>
      var ds := Digits(n);
      NonDecreasing(ds) && exists k :: 0 <= k < |ds| - 1 && ds[k] == ds[k + 1]
  {
    var ds := Digits(n);
    SortedCopyFixpoint(ds);
    FewerElementsIffRepeat(ds);
    if NonDecreasing(ds) {
      SortedRepeatIsAdjacent(ds);
    }
  }

  /** Some digit occurs exactly twice. */
  predicate HasExactPair(s: seq<int>)
  {
    exists k :: 0 <= k < |s| && multiset(s)[s[k]] == 2
  }

  /** `2 in frequency.values()`: some key is counted twice. */
  predicate CountedTwice(frequency: map<int, nat>)
  {
    exists d | d in frequency :: frequency[d] == 2
  }

  /** A dictionary holding the count of every digit counts some digit twice exactly
      when some digit occurs twice. */
  lemma PairAmongCounts(ds: seq<int>, frequency: map<int, nat>)
    requires forall k :: 0 <= k < |ds| ==> ds[k] in frequency
    requires forall d :: d in frequency ==> frequency[d] == multiset(ds)[d]
    ensures CountedTwice(frequency) <==> HasExactPair(ds)
  {
    if CountedTwice(frequency) {
      var d :| d in frequency && frequency[d] == 2;
      assert multiset(ds)[d] == 2;
      assert d in multiset(ds);
      var k :| 0 <= k < |ds| && ds[k] == d;
      assert multiset(ds)[ds[k]] == 2;
    }
    if HasExactPair(ds) {
      var k :| 0 <= k < |ds| && multiset(ds)[ds[k]] == 2;
      var d := ds[k];
      assert d in frequency;
      assert frequency[d] == multiset(ds)[d];
      assert frequency[d] == 2;
    }
  }

  /** The frequency count of `day4_part2`: count each digit in a dictionary, then
      ask whether some digit was counted twice. */
  method ExactPair(ds: seq<int>) returns (found: bool)
    ensures found <==> HasExactPair(ds)
  {
    var frequency: map<int, nat> := map[];
    for i := 0 to |ds|
      invariant forall k :: 0 <= k < i ==> ds[k] in frequency
      invariant forall d :: d in frequency ==> frequency[d] == multiset(ds[..i])[d]
    {
      assert ds[..i + 1] == ds[..i] + [ds[i]];
      var d := ds[i];
      frequency := frequency[d := (if d in frequency then frequency[d] else 0) + 1];
    }
    assert ds[..|ds|] == ds;
    PairAmongCounts(ds, frequency);
    found := exists d | d in frequency :: frequency[d] == 2;
  }

  /** The rule `day4_part2` checks for one candidate number. */
  method MeetsPart2(n: nat) returns (ok: bool)
    ensures ok <==> NonDecreasing(Digits(n)) && HasExactPair(Digits(n))
  {
    var ds := Digits(n);
    SortedCopyFixpoint(ds);
    ok := false;
    if ds == SortedCopy(ds) {
      ok := ExactPair(ds);
    }
  }

  /** Without a repeat every digit present occurs once. */
  lemma {:induction false} NoRepeatCountsOne(s: seq<int>)
    requires !HasRepeat(s)
    ensures forall k :: 0 <= k < |s| ==> multiset(s)[s[k]] == 1
  {
    if s != [] {
      var t := s[1..];
      assert s == [s[0]] + t;
      NoRepeatCountsOne(t);
      forall k | 0 <= k < |s|
        ensures multiset(s)[s[k]] == 1
      {
        if k > 0 {
          assert s[k] == t[k - 1];
          assert s[k] != s[0];
        }
      }
    }
  }

  /** Every number that meets the part-2 rule meets the part-1 rule. */
  lemma Part2ImpliesPart1(n: nat)
    requires NonDecreasing(Digits(n)) && HasExactPair(Digits(n))
    ensures MeetsPart1(n)
  {
    var ds := Digits(n);
    SortedCopyFixpoint(ds);
    FewerElementsIffRepeat(ds);
    if !HasRepeat(ds) {
      NoRepeatCountsOne(ds);
      assert false;
    }
  }

}
