/** The min-entropy estimators of section 6.3 of NIST SP 800-90B: most common value and collision. The
    binary logarithm is a parameter of which only its laws are used. */
module MinEntropy {
  import opened Samples
  import opened Counting

  /** The laws of the binary logarithm. */
  ghost predicate IsLog2(log2: real -> real) {
    && log2(2.0) == 1.0
    && (forall x: real, y: real :: x > 0.0 && y > 0.0 ==> log2(x * y) == log2(x) + log2(y))
    && (forall x: real, y: real :: 0.0 < x < y ==> log2(x) < log2(y))
  }

  lemma Product(log2: real -> real, x: real, y: real)
    requires IsLog2(log2) && x > 0.0 && y > 0.0
    ensures log2(x * y) == log2(x) + log2(y)
  {
  }

  lemma Log2Values(log2: real -> real)
    requires IsLog2(log2)
    ensures log2(1.0) == 0.0 && log2(256.0) == 8.0 && log2(1.0 / 256.0) == -8.0
  {
    Product(log2, 1.0, 1.0);
    Product(log2, 2.0, 2.0);
    Product(log2, 4.0, 4.0);
    Product(log2, 16.0, 16.0);
    Product(log2, 256.0, 1.0 / 256.0);
  }

  // ======================= Most common value =======================

  /** What the share of the commonest value, count of n, says. */
  function McvEstimate(log2: real -> real, count: nat, n: nat): real
    requires n > 0
  {
    var pMax := count as real / n as real;
    if pMax >= 1.0 then 0.0 else -log2(pMax)
  }

  lemma Factor(a: real, b: real)
    requires b > 0.0 && a * b >= 0.0
    ensures a >= 0.0
  {
  }

  lemma ShareBounds(count: nat, n: nat)
    requires n > 0 && n <= 256 * count
    ensures count as real / n as real >= 1.0 / 256.0
    ensures count as real / n as real >= 1.0 <==> count >= n
  {
    var share := count as real / n as real;
    assert share * n as real == count as real;
    assert (256.0 * share - 1.0) * n as real == (256 * count - n) as real;
    Factor(256.0 * share - 1.0, n as real);
    if share >= 1.0 {
      assert (share - 1.0) * n as real >= 0.0;
    } else {
      assert (1.0 - share) * n as real > 0.0;
    }
  }

  /** The estimate is between 0 and 8 bits, and 0 exactly when all bytes are equal. */
  lemma {:induction false} McvBounds(log2: real -> real, data: seq<byte>)
    requires IsLog2(log2) && data != []
    ensures 0.0 <= McvEstimate(log2, MaxCount(data), |data|) <= 8.0
    ensures McvEstimate(log2, MaxCount(data), |data|) == 0.0 <==> LongestRun(data) == |data|
  {
    hide MaxCount, LongestRun;
    Log2Values(log2);
    MaxCountShare(data);
    ShareBounds(MaxCount(data), |data|);
    AllEqual(data);
  }

  lemma AllEqual(data: seq<byte>)
    requires data != []
    ensures MaxCount(data) == |data| <==> LongestRun(data) == |data|
    ensures MaxCount(data) <= |data|
  {
    LongestRunIsLongest(data, |data|);
    var x := MaxCountAttained(data);
    MaxCountBounds(data, data[0]);
    FullCount(data, x);
    FullCount(data, data[0]);
    if HasRun(data, |data|) {
      assert RunAt(data, 0, |data|);
    }
    if forall j :: 0 <= j < |data| ==> data[j] == x {
      assert RunAt(data, 0, |data|);
    }
  }

  lemma {:induction false} FullCount(data: seq<byte>, x: byte)
    ensures Count(data, x) == |data| <==> forall j :: 0 <= j < |data| ==> data[j] == x
    decreases |data|
  {
    if data != [] {
      var d := data[..|data| - 1];
      FullCount(d, x);
      if forall j :: 0 <= j < |d| ==> d[j] == x {
        assert forall j :: 0 <= j < |d| ==> data[j] == d[j];
      } else {
        var j :| 0 <= j < |d| && d[j] != x;
        assert data[j] != x;
      }
    }
  }

  /** Most common value: its count is the highest multiplicity, and it cannot be small. */
  method EstimateMcvWithStats(data: seq<byte>, log2: real -> real)
    returns (minEntropy: real, mostCommon: byte, maxCount: nat, unique: nat)
    ensures maxCount == MaxCount(data) && unique == |Distinct(data)|
    ensures data != [] ==> Count(data, mostCommon) == maxCount
    ensures |data| <= unique * maxCount && |data| <= 256 * maxCount
    ensures data == [] ==> mostCommon == 0 && minEntropy == 0.0
    ensures minEntropy == if data == [] then 0.0 else McvEstimate(log2, MaxCount(data), |data|)
    ensures data != [] && maxCount == |data| ==> minEntropy == 0.0
    ensures data != [] && maxCount < |data| ==> minEntropy == -log2(maxCount as real / |data| as real)
  {
    MaxCountShare(data);
    if |data| == 0 {
      return 0.0, 0, 0, 0;
    }
    ShareBounds(MaxCount(data), |data|);
    var freq := Tally(data);
    unique := |freq|;
    mostCommon, maxCount := HighestCount(freq, 0, data);
    var pMax := maxCount as real / |data| as real;
    if pMax >= 1.0 {
      minEntropy := 0.0;
    } else {
      minEntropy := -log2(pMax);
    }
  }

  // ======================= Collision =======================

  ghost predicate AllDistinct(s: seq<byte>) {
    forall i, j :: 0 <= i < j < |s| ==> s[i] != s[j]
  }

  lemma {:induction false} DistinctCount(s: seq<byte>)
    requires AllDistinct(s)
    ensures |Distinct(s)| == |s|
    decreases |s|
  {
    if s != [] {
      var d, last := s[..|s| - 1], s[|s| - 1];
      DistinctCount(d);
      assert Distinct(s) == Distinct(d) + {last};
    } else {
      assert Distinct(s) == {};
    }
  }

  /** Distinct bytes are at most 256 many. */
  lemma DistinctIsShort(s: seq<byte>)
    requires AllDistinct(s)
    ensures |s| <= 256
  {
    DistinctCount(s);
    AtMost256Bytes(Distinct(s));
  }

  /** What a collision at a given time says, none being time zero. */
  function CollisionEstimate(log2: real -> real, time: nat): real {
    if time == 0 then 8.0
    else if time == 2 then 1.0
    else Clamped(log2(time as real))
  }

  function Clamped(x: real): real {
    if x > 8.0 then 8.0 else if x < 0.0 then 0.0 else x
  }

  /** For the times that are reported the estimate is at least one bit, grows strictly with the time up to
      256, and is the logarithm of the time, or eight bits at 257. */
  lemma CollisionBounds(log2: real -> real, time: nat)
    requires IsLog2(log2) && 2 <= time <= 257
    ensures 1.0 <= CollisionEstimate(log2, time) <= 8.0
    ensures CollisionEstimate(log2, time) == if time <= 256 then log2(time as real) else 8.0
    ensures time <= 256 ==>
              forall later :: time < later <= 256 ==> CollisionEstimate(log2, time) < CollisionEstimate(log2, later)
  {
    Log2Values(log2);
    LogBetween(log2, time);
    forall later | time < later <= 256
      ensures CollisionEstimate(log2, time) < CollisionEstimate(log2, later)
    {
      LogBetween(log2, later);
      assert 0.0 < time as real < later as real;
    }
  }

  lemma LogBetween(log2: real -> real, time: nat)
    requires IsLog2(log2) && time >= 2
    ensures log2(time as real) >= 1.0
    ensures time <= 256 ==> log2(time as real) <= 8.0
    ensures time > 256 ==> log2(time as real) > 8.0
  {
    Log2Values(log2);
    var x := time as real;
    assert time == 2 || 2.0 < x;
    assert time < 256 ==> x < 256.0;
    assert time > 256 ==> 256.0 < x;
  }

  /** First collision: a reported time is the one-based place of the first repeat, so everything
      before it is distinct and it comes at 257 at the latest; no report means all bytes distinct. */
  method EstimateCollisionWithStats(data: seq<byte>, log2: real -> real)
    returns (minEntropy: real, collisionTime: nat, collisionValue: byte, uniqueBefore: nat)
    ensures minEntropy == if data == [] then 0.0 else CollisionEstimate(log2, collisionTime)
    ensures data != [] && collisionTime == 0 ==> minEntropy == 8.0
    ensures data != [] && IsLog2(log2) && collisionTime > 0 ==>
              minEntropy == if collisionTime <= 256 then log2(collisionTime as real) else 8.0
    ensures data == [] ==> (collisionTime, collisionValue, uniqueBefore) == (0, 0, 0)
    ensures |data| == 1 ==> (collisionTime, collisionValue, uniqueBefore) == (0, data[0], 1)
    ensures |data| >= 2 && collisionTime > 0 ==>
              && 2 <= collisionTime <= |data| && collisionTime <= 257
              && AllDistinct(data[..collisionTime - 1])
              && data[collisionTime - 1] in data[..collisionTime - 1]
              && collisionValue == data[collisionTime - 1]
              && uniqueBefore == collisionTime - 1
    ensures |data| >= 2 && collisionTime == 0 ==>
              AllDistinct(data) && |data| <= 256 && collisionValue == 0 && uniqueBefore == |data|
  {
    if |data| == 0 {
      return 0.0, 0, 0, 0;
    }
    if |data| == 1 {
      return 8.0, 0, data[0], 1;
    }
    var seen: set<byte> := {};
    collisionTime, collisionValue := 0, 0;
    for i := 0 to |data|
      invariant seen == Distinct(data[..i])
      invariant AllDistinct(data[..i])
      invariant collisionTime == 0 && collisionValue == 0
    {
      var b := data[i];
      if b in seen {
        collisionTime := i + 1;
        collisionValue := b;
        DistinctIsShort(data[..i]);
        DistinctCount(data[..i]);
        uniqueBefore := |seen|;
        if IsLog2(log2) {
          CollisionBounds(log2, collisionTime);
        }
        if collisionTime == 2 {
          minEntropy := 1.0;
        } else {
          minEntropy := log2(collisionTime as real);
          if minEntropy > 8.0 {
            minEntropy := 8.0;
          }
          if minEntropy < 0.0 {
            minEntropy := 0.0;
          }
        }
        return;
      }
      seen := seen + {b};
      assert data[..i + 1] == data[..i] + [b];
    }
    assert data[..|data|] == data;
    DistinctIsShort(data);
    DistinctCount(data);
    uniqueBefore := |seen|;
    minEntropy := 8.0;
  }

  // ======================= The conservative estimate =======================

  /** The lower of the two: within 0 and 8 bits, 0 exactly when no two bytes differ. */
  method EstimateMinEntropyConservative(data: seq<byte>, log2: real -> real) returns (minEntropy: real)
    requires IsLog2(log2)
    ensures 0.0 <= minEntropy <= 8.0
    ensures minEntropy == 0.0 <==> LongestRun(data) == |data|
    ensures exists mcv, collision, time ::
              && McvOf(log2, data, mcv) && CollisionOf(log2, data, collision, time)
              && minEntropy == if mcv < collision then mcv else collision
  {
    hide MaxCount, LongestRun, IsLog2, McvEstimate, CollisionEstimate, AllDistinct;
    var mcv, _, _, _ := EstimateMcvWithStats(data, log2);
    var collision, time, _, _ := EstimateCollisionWithStats(data, log2);
    if data != [] {
      McvBounds(log2, data);
      AllEqual(data);
      CollisionPositive(log2, time);
      if |data| == 1 {
        OneByteIsDistinct(data);
      }
    }
    assert McvOf(log2, data, mcv) && CollisionOf(log2, data, collision, time);
    if mcv < collision {
      return mcv;
    }
    return collision;
  }

  /** x is the first estimate for the data. */
  ghost predicate McvOf(log2: real -> real, data: seq<byte>, x: real) {
    && (data == [] ==> x == 0.0)
    && (data != [] && MaxCount(data) == |data| ==> x == 0.0)
    && (data != [] && MaxCount(data) < |data| ==> x == -log2(MaxCount(data) as real / |data| as real))
  }

  /** x is the second, from a first repeat at the given one-based time, or from none where that is zero. */
  ghost predicate CollisionOf(log2: real -> real, data: seq<byte>, x: real, time: nat) {
    if data == [] then x == 0.0
    else if time == 0 then AllDistinct(data) && x == 8.0
    else
      && 2 <= time <= |data| && time <= 257
      && AllDistinct(data[..time - 1]) && data[time - 1] in data[..time - 1]
      && x == if time <= 256 then log2(time as real) else 8.0
  }

  lemma OneByteIsDistinct(data: seq<byte>)
    requires |data| == 1
    ensures AllDistinct(data)
  {
  }

  lemma CollisionPositive(log2: real -> real, time: nat)
    requires IsLog2(log2) && (time == 0 || 2 <= time <= 257)
    ensures 1.0 <= CollisionEstimate(log2, time) <= 8.0
    ensures CollisionEstimate(log2, time) == if 2 <= time <= 256 then log2(time as real) else 8.0
  {
    if time != 0 {
      CollisionBounds(log2, time);
    }
  }
}
