/** Bytes, and the two declarative measures of a sample sequence that the health tests and the
    batch statistics are judged by: how often a value occurs, and how long a run of equal
    values gets. */
module Samples {

  type byte = bv8

  datatype Option<+T> = None | Some(value: T)

  function Max(a: int, b: int): int { if a < b then b else a }

  function Min(a: int, b: int): int { if a < b then a else b }

  /** The last k elements of s, or all of s when it is shorter. */
  function Suffix<T>(s: seq<T>, k: nat): seq<T> {
    if |s| <= k then s else s[|s| - k..]
  }

  lemma SuffixOfAppend<T>(s: seq<T>, t: seq<T>, k: nat)
    ensures Suffix(Suffix(s, k) + t, k) == Suffix(s + t, k)
  {
  }

  // ---- Multiplicity ----

  function Count<T(==)>(s: seq<T>, x: T): (n: nat)
    ensures n <= |s|
  {
    if s == [] then 0 else (if s[|s| - 1] == x then 1 else 0) + Count(s[..|s| - 1], x)
  }

  lemma {:induction false} CountAppend<T>(s: seq<T>, t: seq<T>, x: T)
    ensures Count(s + t, x) == Count(s, x) + Count(t, x)
  {
    if t == [] {
      assert s + t == s;
    } else {
      assert (s + t)[..|s + t| - 1] == s + t[..|t| - 1];
      CountAppend(s, t[..|t| - 1], x);
    }
  }

  lemma CountSnoc<T>(s: seq<T>, v: T, x: T)
    ensures Count(s + [v], x) == Count(s, x) + if v == x then 1 else 0
  {
    assert (s + [v])[..|s|] == s;
  }

  /** The count is the multiplicity. */
  lemma {:induction false} CountIsMultiplicity<T>(s: seq<T>, x: T)
    ensures Count(s, x) == multiset(s)[x]
  {
    if s != [] {
      CountIsMultiplicity(s[..|s| - 1], x);
      assert s == s[..|s| - 1] + [s[|s| - 1]];
    }
  }

  // ---- Runs of equal values ----

  /** s[i..i+k] consists of k equal values. */
  ghost predicate RunAt<T(!new)>(s: seq<T>, i: nat, k: nat) {
    i + k <= |s| && forall j :: i <= j < i + k ==> s[j] == s[i]
  }

  /** Somewhere in s the same value stands k times in a row. */
  ghost predicate HasRun<T(!new)>(s: seq<T>, k: nat) {
    exists i: nat :: RunAt(s, i, k)
  }

  /** Length of the run that ends s. */
  function TrailingRun<T(==)>(s: seq<T>): (n: nat)
    ensures n <= |s|
    ensures s != [] ==> n >= 1
  {
    if s == [] then 0
    else if |s| >= 2 && s[|s| - 1] == s[|s| - 2] then TrailingRun(s[..|s| - 1]) + 1
    else 1
  }

  function LongestRun<T(==)>(s: seq<T>): (n: nat)
    ensures TrailingRun(s) <= n <= |s|
  {
    if s == [] then 0 else Max(LongestRun(s[..|s| - 1]), TrailingRun(s))
  }

  /** The trailing run is a run, and no longer run ends s. */
  lemma {:induction false} TrailingRunIsMaximal<T(!new)>(s: seq<T>, k: nat)
    requires 1 <= k <= |s|
    ensures RunAt(s, |s| - k, k) <==> k <= TrailingRun(s)
  {
    if k >= 2 {
      var d := s[..|s| - 1];
      TrailingRunIsMaximal(d, k - 1);
      assert RunAt(s, |s| - k, k) <==> RunAt(d, |d| - (k - 1), k - 1) && s[|s| - 1] == s[|s| - 2] by {
        if RunAt(d, |d| - (k - 1), k - 1) && s[|s| - 1] == s[|s| - 2] {
          assert s[|s| - 2] == d[|d| - 1] == d[|d| - (k - 1)];
        }
        if RunAt(s, |s| - k, k) {
          assert s[|s| - 1] == s[|s| - k] && s[|s| - 2] == s[|s| - k];
        }
      }
    }
  }

  /** LongestRun is exactly the largest k for which s has a run of k equal values. */
  lemma {:induction false} LongestRunIsLongest<T(!new)>(s: seq<T>, k: nat)
    ensures HasRun(s, k) <==> k <= LongestRun(s)
  {
    if k == 0 {
      assert RunAt(s, 0, 0);
    } else if s != [] {
      var d := s[..|s| - 1];
      LongestRunIsLongest(d, k);
      if HasRun(s, k) {
        var i: nat :| RunAt(s, i, k);
        if i + k == |s| {
          TrailingRunIsMaximal(s, k);
        } else {
          assert RunAt(d, i, k);
        }
      }
      if k <= LongestRun(d) {
        var i: nat :| RunAt(d, i, k);
        assert RunAt(s, i, k);
      } else if k <= TrailingRun(s) {
        TrailingRunIsMaximal(s, k);
      }
    }
  }

  /** A run inside the tail of a sequence is a run of the sequence. */
  lemma RunOfTail<T(!new)>(head: seq<T>, tail: seq<T>, k: nat)
    requires HasRun(tail, k)
    ensures HasRun(head + tail, k)
  {
    var i: nat :| RunAt(tail, i, k);
    var all := head + tail;
    forall j | |head| + i <= j < |head| + i + k
      ensures all[j] == all[|head| + i]
    {
      assert all[j] == tail[j - |head|];
      assert tail[j - |head|] == tail[i];
    }
    assert RunAt(all, |head| + i, k);
  }

  // ---- Automata over samples ----

  type Automaton<!S> = (S, byte) -> (S, bool)

  /** A block: samples are fed until one fails. */
  function Feed<S>(step: Automaton<S>, s: S, data: seq<byte>): (S, bool)
    decreases |data|
  {
    if data == [] then (s, true)
    else
      var (t, ok) := step(s, data[0]);
      if ok then Feed(step, t, data[1..]) else (t, false)
  }

  /** How many samples pass before the first one that fails, all of them if none does. */
  function Passed<S>(step: Automaton<S>, s: S, data: seq<byte>): (n: nat)
    ensures n <= |data|
    ensures n == |data| <==> Feed(step, s, data).1
    decreases |data|
  {
    if data == [] then 0
    else
      var (t, ok) := step(s, data[0]);
      if ok then 1 + Passed(step, t, data[1..]) else 0
  }

  /** Where a stream is cut into blocks makes no difference. */
  lemma {:induction false} FeedAppend<S>(step: Automaton<S>, s: S, a: seq<byte>, b: seq<byte>)
    ensures Feed(step, s, a + b) == if Feed(step, s, a).1 then Feed(step, Feed(step, s, a).0, b) else Feed(step, s, a)
    ensures Passed(step, s, a + b) ==
            if Feed(step, s, a).1 then |a| + Passed(step, Feed(step, s, a).0, b) else Passed(step, s, a)
    decreases |a|
  {
    if a == [] {
      assert a + b == b;
    } else {
      assert (a + b)[0] == a[0] && (a + b)[1..] == a[1..] + b;
      var (t, ok) := step(s, a[0]);
      if ok {
        FeedAppend(step, t, a[1..], b);
      }
    }
  }

  lemma FeedNothing<S>(step: Automaton<S>, s: S)
    ensures Feed(step, s, []) == (s, true)
  {
  }

  lemma FeedSnoc<S>(step: Automaton<S>, s: S, data: seq<byte>)
    requires data != []
    ensures var (t, ok) := Feed(step, s, data[..|data| - 1]);
            Feed(step, s, data) == if ok then step(t, data[|data| - 1]) else (t, false)
  {
    var d, x := data[..|data| - 1], data[|data| - 1];
    assert data == d + [x];
    FeedAppend(step, s, d, [x]);
    var t := Feed(step, s, d).0;
    assert Feed(step, step(t, x).0, []) == (step(t, x).0, true);
    assert [x][1..] == [];
  }
}
