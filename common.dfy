/** Small shared vocabulary: optional values, sums and means of real
    sequences, bounded "keep the most recent n" windows (Python's
    `deque(maxlen=n)` and the `append` + `pop(0)` idiom), and the integer
    roundings Python applies to reals (`//`, `math.ceil`, `int()`). */
module Common {

  datatype Option<+T> = None | Some(value: T) {
    function GetOr(default: T): T {
      match this
      case Some(v) => v
      case None => default
    }
  }

  /** A non-empty set of reals has a member (stated so that `:|` can pick
      one). */
  lemma NonEmptyHasMember(s: set<real>)
    requires s != {}
    ensures exists x :: x in s
  {
    assert (forall x :: x !in s) ==> s == {};
  }

  /** Sum of a sequence of reals, left to right. */
  function Sum(s: seq<real>): real
    decreases |s|
  {
    if |s| == 0 then 0.0 else Sum(s[..|s| - 1]) + s[|s| - 1]
  }

  /** Python's `statistics.mean` / `np.mean` of a non-empty sequence. */
  function Mean(s: seq<real>): real
    requires |s| > 0
  {
    Sum(s) / |s| as real
  }

  lemma {:induction false} SumBounds(s: seq<real>, lo: real, hi: real)
    requires forall i :: 0 <= i < |s| ==> lo <= s[i] <= hi
    ensures |s| as real * lo <= Sum(s) <= |s| as real * hi
    decreases |s|
  {
    if |s| > 0 {
      var k := (|s| - 1) as real;
      SumBounds(s[..|s| - 1], lo, hi);
      assert |s| as real * lo == k * lo + lo;
      assert |s| as real * hi == k * hi + hi;
    }
  }

  /** The mean of values that all lie in [lo, hi] lies in [lo, hi]. */
  lemma MeanBounds(s: seq<real>, lo: real, hi: real)
    requires |s| > 0
    requires forall i :: 0 <= i < |s| ==> lo <= s[i] <= hi
    ensures lo <= Mean(s) <= hi
  {
    SumBounds(s, lo, hi);
    var n := |s| as real;
    assert n * lo <= Sum(s) <= n * hi;
    assert Sum(s) / n >= lo by {
      assert Sum(s) >= lo * n;
    }
    assert Sum(s) / n <= hi by {
      assert Sum(s) <= hi * n;
    }
  }

  /** The last `n` elements of `s` (all of `s` when it is shorter): what a
      bounded deque or a list trimmed with `pop(0)` keeps. */
  function LastN<T>(s: seq<T>, n: nat): (r: seq<T>)
    ensures |r| <= n && |r| <= |s|
    ensures |s| <= n ==> r == s
    ensures |s| > n ==> |r| == n
  {
    if |s| <= n then s else s[|s| - n..]
  }

  /** The window is the suffix of `s` of its own length. */
  lemma LastNIsSuffix<T>(s: seq<T>, n: nat)
    ensures LastN(s, n) == s[|s| - |LastN(s, n)|..]
  {
  }

  /** Trimming to a long window and then to a shorter one is the same as
      trimming to the shorter one directly: `hist[-9:]` of a 60-entry
      history is the last 9 prices ever seen. */
  lemma LastNOfLastN<T>(s: seq<T>, m: nat, n: nat)
    requires n <= m
    ensures LastN(LastN(s, m), n) == LastN(s, n)
  {
  }

  /** Appending one element and trimming keeps the window of the longer
      sequence: the incremental `append` + `pop(0)` loop maintains exactly
      the last n elements seen so far. */
  lemma {:induction false} LastNAppend<T>(s: seq<T>, x: T, n: nat)
    requires n > 0
    ensures LastN(LastN(s, n) + [x], n) == LastN(s + [x], n)
  {
    var w := LastN(s, n);
    var t := s + [x];
    if |s| < n {
      assert w == s;
    } else {
      assert w + [x] == t[|t| - n - 1..];
      assert (w + [x])[1..] == t[|t| - n..];
    }
  }

  /** `h.append(x)` followed by `h.pop(0)` when the list grew past n. */
  function PushCapped<T>(h: seq<T>, x: T, n: nat): seq<T> {
    var g := h + [x];
    if |g| > n then g[1..] else g
  }

  /** Pushing onto the window of the last n elements gives the window of
      the extended sequence. */
  lemma PushCappedWindow<T>(s: seq<T>, x: T, n: nat)
    requires n > 0
    ensures PushCapped(LastN(s, n), x, n) == LastN(s + [x], n)
  {
    LastNAppend(s, x, n);
  }

  /** Python's `float // float` and `math.floor`: the greatest integer not
      above x. */
  function Floor(x: real): (r: int)
    ensures r as real <= x < r as real + 1.0
  {
    x.Floor
  }

  /** Python's `math.ceil`: the least integer not below x. */
  function Ceil(x: real): (r: int)
    ensures r as real - 1.0 < x <= r as real
  {
    -((-x).Floor)
  }

  /** Python's `int(x)` on a float: truncation toward zero. */
  function Trunc(x: real): (r: int)
    ensures x >= 0.0 ==> r as real <= x < r as real + 1.0
    ensures x < 0.0 ==> r as real - 1.0 < x <= r as real
  {
    if x >= 0.0 then x.Floor else -((-x).Floor)
  }

  /** Truncation keeps the sign: int(x) >= 0 exactly when x > -1. */
  lemma TruncNonNegative(x: real)
    ensures Trunc(x) >= 0 <==> x > -1.0
  {
  }

  /** int(x) <= k exactly when x < k + 1, for a non-negative bound k. */
  lemma TruncAtMost(x: real, k: int)
    requires k >= 0
    ensures Trunc(x) <= k <==> x < k as real + 1.0
  {
  }

  // Sign and order facts about real products, used across the modules.

  lemma MulPositive(x: real, y: real)
    requires x > 0.0 && y > 0.0
    ensures x * y > 0.0
  {
  }

  lemma MulNonNegative(x: real, y: real)
    requires x >= 0.0 && y >= 0.0
    ensures x * y >= 0.0
  {
  }

  lemma MulAtMost(a: real, b: real, c: real)
    requires a <= b && c > 0.0
    ensures a * c <= b * c
  {
  }
}
