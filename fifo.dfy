/** The first-in-first-out walk shared by Issue/Return and disposal: candidates are visited
    in ascending batch id and each gives `min(remaining, available)` until nothing remains. */
module Fifo {

  function Min(a: int, b: int): int
  {
    if a <= b then a else b
  }

  function Sum(s: seq<int>): int
  {
    if s == [] then 0 else Sum(s[..|s| - 1]) + s[|s| - 1]
  }

  predicate AllPositive(s: seq<int>)
  {
    forall i :: 0 <= i < |s| ==> s[i] > 0
  }

  /** The amount taken from each candidate, in candidate order, when `remaining` units are wanted. */
  function Takes(avails: seq<int>, remaining: int): (r: seq<int>)
    ensures |r| <= |avails|
  {
    if avails == [] || remaining <= 0 then []
    else
      var t := Min(remaining, avails[0]);
      [t] + Takes(avails[1..], remaining - t)
  }

  lemma {:induction false} SumCons(x: int, s: seq<int>)
    ensures Sum([x] + s) == x + Sum(s)
  {
    if s != [] {
      assert ([x] + s)[..|[x] + s| - 1] == [x] + s[..|s| - 1];
      SumCons(x, s[..|s| - 1]);
    }
  }

  lemma {:induction false} SumAppend(s: seq<int>, x: int)
    ensures Sum(s + [x]) == Sum(s) + x
  {
    assert (s + [x])[..|s|] == s;
  }

  /** On success the takes add up to the request; when stock is short they add up to all of it. */
  lemma {:induction false} TakesTotal(avails: seq<int>, remaining: int)
    requires AllPositive(avails) && remaining >= 0
    ensures Sum(Takes(avails, remaining)) == Min(remaining, Sum(avails))
  {
    if avails == [] {
    } else {
      SumCons(avails[0], avails[1..]);
      assert [avails[0]] + avails[1..] == avails;
      if remaining == 0 {
        PositiveSum(avails);
      } else {
        var t := Min(remaining, avails[0]);
        TakesTotal(avails[1..], remaining - t);
        SumCons(t, Takes(avails[1..], remaining - t));
        if t == avails[0] {
        } else {
          PositiveSum(avails[1..]);
        }
      }
    }
  }

  lemma {:induction false} PositiveSum(s: seq<int>)
    requires AllPositive(s)
    ensures Sum(s) >= 0
    ensures s != [] ==> Sum(s) > 0
  {
    if s != [] {
      PositiveSum(s[..|s| - 1]);
    }
  }

  /** Each take is positive, at most that candidate's availability, and at most the request. */
  lemma {:induction false} TakesBounded(avails: seq<int>, remaining: int)
    requires AllPositive(avails)
    ensures var r := Takes(avails, remaining);
            forall i :: 0 <= i < |r| ==> 0 < r[i] <= avails[i] && r[i] <= remaining
  {
    if avails != [] && remaining > 0 {
      var t := Min(remaining, avails[0]);
      TakesBounded(avails[1..], remaining - t);
    }
  }

  /** FIFO: every candidate before the last one touched is drained completely. */
  lemma {:induction false} TakesDrainEarlier(avails: seq<int>, remaining: int)
    ensures var r := Takes(avails, remaining);
            forall i :: 0 <= i < |r| - 1 ==> r[i] == avails[i]
  {
    if avails != [] && remaining > 0 {
      var t := Min(remaining, avails[0]);
      TakesDrainEarlier(avails[1..], remaining - t);
      var rest := Takes(avails[1..], remaining - t);
      if rest != [] {
        assert remaining - t > 0;
      }
    }
  }
}
