/** The three-way comparison `AppVersion.__cmp__` performs on version
    sequences. The code zero-pads only the OTHER sequence, and only when it is
    the shorter one; when `self` is shorter nothing is padded and only the
    first `len(self)` positions are compared. */
module Ordering {
  import opened PyText

  /** `b` extended with zeros to length `n` (unchanged when already that long). */
  function Pad(b: seq<int>, n: int): (r: seq<int>)
    ensures |r| == if |b| >= n then |b| else n
    ensures r[..|b|] == b
    ensures forall i :: |b| <= i < |r| ==> r[i] == 0
  {
    if |b| >= n then b else b + Repeat(0, n - |b|)
  }

  /** The first index where `a` and `b` differ, among the first `|a|` positions. */
  ghost predicate FirstDiffAt(a: seq<int>, b: seq<int>, k: int)
    requires |a| <= |b|
  {
    0 <= k < |a| && a[k] != b[k] && forall j :: 0 <= j < k ==> a[j] == b[j]
  }

  /** The scan of lines 144-149 over the first `|a|` positions of `b`: the first
      difference decides, and no difference gives 0. */
  function PrefixCmp(a: seq<int>, b: seq<int>): (r: int)
    requires |a| <= |b|
    ensures r in {-1, 0, 1}
    decreases |a|
  {
    if |a| == 0 then 0
    else if a[0] == b[0] then PrefixCmp(a[1..], b[1..])
    else if a[0] > b[0] then 1 else -1
  }

  /** What `PrefixCmp` means: 0 exactly when `a` is a prefix of `b`, and
      otherwise the sign of the first difference. */
  lemma {:induction false} PrefixCmpMeaning(a: seq<int>, b: seq<int>)
    requires |a| <= |b|
    ensures PrefixCmp(a, b) == 0 <==> a == b[..|a|]
    ensures PrefixCmp(a, b) != 0 ==> exists k :: FirstDiffAt(a, b, k) && PrefixCmp(a, b) == (if a[k] > b[k] then 1 else -1)
    decreases |a|
  {
    if |a| > 0 {
      PrefixCmpMeaning(a[1..], b[1..]);
      if a[0] == b[0] {
        if PrefixCmp(a, b) != 0 {
          var k :| FirstDiffAt(a[1..], b[1..], k) && PrefixCmp(a[1..], b[1..]) == (if a[1..][k] > b[1..][k] then 1 else -1);
          assert FirstDiffAt(a, b, k + 1);
        }
        assert a == b[..|a|] <==> a[1..] == b[1..][..|a| - 1];
      } else {
        assert FirstDiffAt(a, b, 0);
      }
    }
  }

  /** `self.__cmp__(other)` on the sequences as they are before the call; it
      returns one of -1, 0 and 1. */
  function CmpSeqs(a: seq<int>, b: seq<int>): (r: int)
    ensures r in {-1, 0, 1}
  {
    PrefixCmp(a, Pad(b, |a|))
  }

  /** The scan of lines 144-149 as the loop it is. */
  method ScanCompare(v1: seq<int>, v2: seq<int>) returns (r: int)
    requires |v1| <= |v2|
    ensures r == PrefixCmp(v1, v2)
  {
    var i := 0;
    while i < |v1|
      invariant 0 <= i <= |v1|
      invariant PrefixCmp(v1, v2) == PrefixCmp(v1[i..], v2[i..])
    {
      if v1[i] == v2[i] {
        assert v1[i..][1..] == v1[i + 1..] && v2[i..][1..] == v2[i + 1..];
        i := i + 1;
      } else {
        r := if v1[i] > v2[i] then 1 else -1;
        return;
      }
    }
    r := 0;
  }

  /** Padding the other side first, as the call does in place, does not
      change the result: a later identical comparison agrees. */
  lemma PadStable(a: seq<int>, b: seq<int>)
    ensures CmpSeqs(a, Pad(b, |a|)) == CmpSeqs(a, b)
  {
    var p := Pad(b, |a|);
    assert Pad(p, |a|) == p;
  }

  /** When `self` is at least as long as `other`, every position of `self` is
      compared against `other` padded with zeros. */
  lemma CmpSelfLonger(a: seq<int>, b: seq<int>)
    requires |a| >= |b|
    ensures CmpSeqs(a, b) == 0 <==> a == Pad(b, |a|)
  {
    PrefixCmpMeaning(a, Pad(b, |a|));
  }

  /** When `self` is shorter, only its own positions are compared and the
      rest of `other` is ignored. */
  lemma CmpSelfShorter(a: seq<int>, b: seq<int>)
    requires |a| < |b|
    ensures CmpSeqs(a, b) == PrefixCmp(a, b[..|a|])
    ensures CmpSeqs(a, b) == 0 <==> a == b[..|a|]
  {
    assert Pad(b, |a|) == b;
    PrefixCmpMeaning(a, b);
    PrefixCmpSlice(a, b);
  }

  lemma {:induction false} PrefixCmpSlice(a: seq<int>, b: seq<int>)
    requires |a| <= |b|
    ensures PrefixCmp(a, b) == PrefixCmp(a, b[..|a|])
    decreases |a|
  {
    if |a| > 0 {
      PrefixCmpSlice(a[1..], b[1..]);
      PrefixCmpSlice(a[1..], b[..|a|][1..]);
      assert b[1..][..|a| - 1] == b[..|a|][1..];
    }
  }

  /** The asymmetry of the code as written: `"B 2"` against `"B 2.10"` is 0,
      while `"B 2.10"` against `"B 2"` is 1. */
  lemma NotAntisymmetric()
    ensures CmpSeqs([2], [2, 10]) == 0
    ensures CmpSeqs([2, 10], [2]) == 1
  {
    assert Pad([2], 2) == [2, 0];
    assert [2, 10][1..] == [10] && [2, 0][1..] == [0];
    assert [2][1..] == [] && [2, 10][1..] == [10];
  }

  /** On sequences of equal length the comparison is lexicographic, so it is
      zero exactly for equal sequences ... */
  lemma EqualLengthZero(a: seq<int>, b: seq<int>)
    requires |a| == |b|
    ensures CmpSeqs(a, b) == 0 <==> a == b
  {
    assert Pad(b, |a|) == b;
    PrefixCmpMeaning(a, b);
  }

  /** ... antisymmetric ... */
  lemma {:induction false} EqualLengthAntisymmetric(a: seq<int>, b: seq<int>)
    requires |a| == |b|
    ensures CmpSeqs(a, b) == -CmpSeqs(b, a)
    decreases |a|
  {
    assert Pad(b, |a|) == b && Pad(a, |b|) == a;
    if |a| > 0 && a[0] == b[0] {
      EqualLengthAntisymmetric(a[1..], b[1..]);
      assert Pad(b[1..], |a| - 1) == b[1..] && Pad(a[1..], |b| - 1) == a[1..];
    }
  }

  /** ... and transitive. */
  lemma {:induction false} EqualLengthTransitive(a: seq<int>, b: seq<int>, c: seq<int>)
    requires |a| == |b| == |c|
    requires CmpSeqs(a, b) <= 0 && CmpSeqs(b, c) <= 0
    ensures CmpSeqs(a, c) <= 0
    decreases |a|
  {
    assert Pad(b, |a|) == b && Pad(c, |b|) == c && Pad(c, |a|) == c;
    if |a| > 0 && a[0] == b[0] && b[0] == c[0] {
      assert Pad(b[1..], |a| - 1) == b[1..] && Pad(c[1..], |b| - 1) == c[1..] && Pad(c[1..], |a| - 1) == c[1..];
      EqualLengthTransitive(a[1..], b[1..], c[1..]);
    }
  }

  /** A conventional comparison that pads the shorter side of both to the longer length. */
  function ValueCmp(a: seq<int>, b: seq<int>): (r: int)
    ensures r in {-1, 0, 1}
  {
    var n := if |a| >= |b| then |a| else |b|;
    PrefixCmp(Pad(a, n), Pad(b, n))
  }

  /** The code agrees with that ordering whenever `self` is at least as long. */
  lemma AgreesWithValueCmp(a: seq<int>, b: seq<int>)
    requires |a| >= |b|
    ensures CmpSeqs(a, b) == ValueCmp(a, b)
  {
    assert Pad(a, |a|) == a;
  }

  /** That conventional comparison is antisymmetric on all inputs, which the code's is not. */
  lemma ValueCmpAntisymmetric(a: seq<int>, b: seq<int>)
    ensures ValueCmp(a, b) == -ValueCmp(b, a)
  {
    var n := if |a| >= |b| then |a| else |b|;
    var pa, pb := Pad(a, n), Pad(b, n);
    assert Pad(pa, n) == pa && Pad(pb, n) == pb;
    EqualLengthAntisymmetric(pa, pb);
  }
}
