/** Combinatorics of counting: the highest multiplicity in a sequence, the pigeonhole bounds on it,
    and the loop that finds it in a frequency table whatever order the table is walked in. */
module Counting {
  import opened Samples

  function Distinct<T>(s: seq<T>): set<T> { set x | x in s }

  /** Highest number of times any value occurs. */
  function MaxCount<T(==)>(s: seq<T>): (n: nat)
    ensures n <= |s|
    decreases |s|
  {
    if s == [] then 0 else Max(MaxCount(s[..|s| - 1]), Count(s, s[|s| - 1]))
  }

  lemma {:induction false} CountPositive<T>(s: seq<T>, x: T)
    ensures Count(s, x) > 0 <==> x in s
    decreases |s|
  {
    if s != [] {
      CountPositive(s[..|s| - 1], x);
      assert s == s[..|s| - 1] + [s[|s| - 1]];
    }
  }

  lemma {:induction false} MaxCountBounds<T>(s: seq<T>, x: T)
    ensures Count(s, x) <= MaxCount(s)
    decreases |s|
  {
    if s != [] {
      MaxCountBounds(s[..|s| - 1], x);
    }
  }

  /** MaxCount is attained. */
  lemma {:induction false} MaxCountAttained<T>(s: seq<T>) returns (x: T)
    requires s != []
    ensures x in s && Count(s, x) == MaxCount(s)
    decreases |s|
  {
    var d, last := s[..|s| - 1], s[|s| - 1];
    x := last;
    if Count(s, last) < MaxCount(s) {
      x := MaxCountAttained(d);
      MaxCountBounds(s, x);
    }
  }

  /** A bound on all counts that some value reaches is the highest count. */
  lemma MaxCountIs<T(!new)>(s: seq<T>, m: nat, x: T)
    requires s != [] && Count(s, x) == m && forall y :: Count(s, y) <= m
    ensures MaxCount(s) == m
  {
    MaxCountBounds(s, x);
    var y := MaxCountAttained(s);
  }

  // ---- Pigeonhole ----

  function Without<T(==)>(s: seq<T>, x: T): (r: seq<T>)
    ensures |r| == |s| - Count(s, x)
    decreases |s|
  {
    if s == [] then []
    else Without(s[..|s| - 1], x) + (if s[|s| - 1] == x then [] else [s[|s| - 1]])
  }

  lemma {:induction false} CountWithout<T>(s: seq<T>, x: T, y: T)
    ensures Count(Without(s, x), y) == if y == x then 0 else Count(s, y)
    decreases |s|
  {
    if s != [] {
      var d, last := s[..|s| - 1], s[|s| - 1];
      CountWithout(d, x, y);
      if last != x {
        CountSnoc(Without(d, x), last, y);
      } else {
        assert Without(s, x) == Without(d, x);
      }
    }
  }

  lemma OneMore(k: nat, m: nat)
    ensures (k - 1) * m + m == k * m
  {
  }

  lemma ProductGrows(j: nat, k: nat, m: nat)
    requires j <= k
    ensures j * m <= k * m
  {
    assert (k - j) * m >= 0;
  }

  /** If every element lies in values and none occurs more than m times, there are at most
      |values| * m elements. */
  lemma {:induction false} Pigeonhole<T(!new)>(s: seq<T>, values: set<T>, m: nat)
    requires forall x :: Count(s, x) <= m && (Count(s, x) > 0 ==> x in values)
    ensures |s| <= |values| * m
    decreases |values|
  {
    if values == {} {
      if s != [] {
        CountPositive(s, s[0]);
      }
    } else {
      var x :| x in values;
      var rest := Without(s, x);
      forall y
        ensures Count(rest, y) <= m && (Count(rest, y) > 0 ==> y in values - {x})
      {
        CountWithout(s, x, y);
      }
      Pigeonhole(rest, values - {x}, m);
      assert |values - {x}| == |values| - 1;
      OneMore(|values|, m);
    }
  }

  lemma AnyOf<T>(s: set<T>) returns (x: T)
    requires s != {}
    ensures x in s
  {
    x :| x in s;
  }

  lemma AnyByte(s: set<byte>) returns (b: byte)
    ensures s != {} ==> b in s
  {
    b := 0;
    if s != {} {
      b := AnyOf(s);
    }
  }

  lemma ByteFromInt(b: byte, v: nat)
    requires v < 256
    ensures b as int == v ==> b == v as byte
  {
  }

  lemma {:induction false} BytesBelow(s: set<byte>, n: nat)
    requires n <= 256 && forall b :: b in s ==> b as int < n
    ensures |s| <= n
  {
    if n > 0 {
      var top := (n - 1) as byte;
      forall b | b in s - {top}
        ensures b as int < n - 1
      {
        ByteFromInt(b, n - 1);
      }
      BytesBelow(s - {top}, n - 1);
      if top in s {
        assert |s - {top}| == |s| - 1;
      } else {
        assert s - {top} == s;
      }
    } else {
      var b := AnyByte(s);
    }
  }

  /** There are 256 bytes. */
  lemma AtMost256Bytes(s: set<byte>)
    ensures |s| <= 256
  {
    BytesBelow(s, 256);
  }

  /** The commonest byte fills its share of the data. */
  lemma MaxCountShare(data: seq<byte>)
    ensures |data| <= |Distinct(data)| * MaxCount(data)
    ensures |Distinct(data)| <= 256 && |data| <= 256 * MaxCount(data)
  {
    hide Count, MaxCount;
    forall x
      ensures Count(data, x) <= MaxCount(data) && (Count(data, x) > 0 ==> x in Distinct(data))
    {
      MaxCountBounds(data, x);
      CountPositive(data, x);
    }
    Pigeonhole(data, Distinct(data), MaxCount(data));
    AtMost256Bytes(Distinct(data));
    ProductGrows(|Distinct(data)|, 256, MaxCount(data));
  }

  // ---- Frequency tables ----

  /** freq maps exactly the values of s to how often they occur. */
  ghost predicate Tallies<T(!new)>(freq: map<T, nat>, s: seq<T>) {
    forall x :: (x in freq <==> Count(s, x) > 0) && (x in freq ==> freq[x] == Count(s, x))
  }

  lemma TallyStep<T(!new)>(freq: map<T, nat>, s: seq<T>, b: T)
    requires Tallies(freq, s)
    ensures Tallies(freq[b := (if b in freq then freq[b] else 0) + 1], s + [b])
  {
    forall x
      ensures Count(s + [b], x) == Count(s, x) + if b == x then 1 else 0
    {
      CountSnoc(s, b, x);
    }
  }

  method Tally<T(==,!new)>(data: seq<T>) returns (freq: map<T, nat>)
    ensures Tallies(freq, data)
    ensures freq.Keys == Distinct(data)
  {
    freq := map[];
    for i := 0 to |data|
      invariant Tallies(freq, data[..i])
    {
      var b := data[i];
      assert data[..i + 1] == data[..i] + [b];
      TallyStep(freq, data[..i], b);
      freq := freq[b := (if b in freq then freq[b] else 0) + 1];
    }
    assert data[..|data|] == data;
    forall x
      ensures x in freq <==> x in Distinct(data)
    {
      CountPositive(data, x);
    }
  }

  /** The walk over the table takes its entries in any order; only a strictly higher count replaces
      the best so far. */
  method HighestCount<T(==,!new)>(freq: map<T, nat>, zero: T, ghost data: seq<T>) returns (value: T, count: nat)
    requires Tallies(freq, data)
    ensures count == MaxCount(data)
    ensures data != [] ==> Count(data, value) == count
    ensures data == [] ==> value == zero
  {
    value, count := zero, 0;
    var rest := freq.Keys;
    while rest != {}
      invariant rest <= freq.Keys
      invariant forall x :: x in freq.Keys - rest ==> freq[x] <= count
      invariant count > 0 ==> Count(data, value) == count
      invariant count == 0 ==> value == zero && rest == freq.Keys
      decreases rest
    {
      var x :| x in rest;
      if freq[x] > count {
        value, count := x, freq[x];
      }
      rest := rest - {x};
    }
    if data != [] {
      CountPositive(data, data[0]);
      forall y
        ensures Count(data, y) <= count
      {
        assert y in freq <==> Count(data, y) > 0;
      }
      MaxCountIs(data, count, value);
    }
  }
}
