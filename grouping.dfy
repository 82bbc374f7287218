/** GROUP BY ... SUM(...) HAVING ... ORDER BY as a fold over keyed contributions: each row
    that survives the joins and the WHERE clause contributes one value under its group key. */
module Grouping {
  import opened Schema
  import opened Ordering

  datatype Entry = Entry(key: Key, value: int)

  /** The rows a join-and-filter produces: each input row yields at most one output row
      (None when an inner join finds no partner or the WHERE clause drops it). */
  function FilterMap<T, U>(xs: seq<T>, f: T -> Option<U>): (r: seq<U>)
    ensures |r| <= |xs|
    ensures (forall x :: x in xs ==> f(x).Some?) ==> |r| == |xs|
  {
    if xs == [] then []
    else
      var y := f(xs[|xs| - 1]);
      FilterMap(xs[..|xs| - 1], f) + (if y.Some? then [y.value] else [])
  }

  /** Every output row comes from some input row. */
  lemma {:induction false} FilterMapFrom<T, U>(xs: seq<T>, f: T -> Option<U>)
    ensures forall y :: y in FilterMap(xs, f) ==> exists x :: x in xs && f(x) == Some(y)
  {
    if xs != [] {
      var init := xs[..|xs| - 1];
      FilterMapFrom(init, f);
      assert forall x :: x in init ==> x in xs;
    }
  }

  /** Every input row the query keeps yields its output row. */
  lemma {:induction false} FilterMapTo<T, U>(xs: seq<T>, f: T -> Option<U>)
    ensures forall x :: x in xs && f(x).Some? ==> f(x).value in FilterMap(xs, f)
  {
    if xs != [] {
      var init := xs[..|xs| - 1];
      FilterMapTo(init, f);
      assert forall x :: x in xs ==> x in init || x == xs[|xs| - 1];
    }
  }

  /** Appending input rows that the query drops changes nothing. */
  lemma {:induction false} FilterMapDropped<T, U>(xs: seq<T>, ys: seq<T>, f: T -> Option<U>)
    requires forall y :: y in ys ==> f(y).None?
    ensures FilterMap(xs + ys, f) == FilterMap(xs, f)
  {
    if ys != [] {
      var k := |ys| - 1;
      assert (xs + ys)[..|xs + ys| - 1] == xs + ys[..k];
      FilterMapDropped(xs, ys[..k], f);
    } else {
      assert xs + ys == xs;
    }
  }

  /** One output row: the group key and the summed value. */
  datatype Group = Group(key: Key, total: int)

  predicate HasKey(es: seq<Entry>, k: Key)
  {
    exists i :: 0 <= i < |es| && es[i].key == k
  }

  /** SUM(value) over the entries of group `k`. */
  function Total(es: seq<Entry>, k: Key): int
  {
    if es == [] then 0
    else Total(es[..|es| - 1], k) + (if es[|es| - 1].key == k then es[|es| - 1].value else 0)
  }

  predicate NoDuplicates<T(==)>(xs: seq<T>)
  {
    forall i, j :: 0 <= i < j < |xs| ==> xs[i] != xs[j]
  }

  /** The distinct group keys, in order of first appearance. */
  function Keys(es: seq<Entry>): (r: seq<Key>)
    ensures forall k :: k in r <==> HasKey(es, k)
    ensures NoDuplicates(r)
  {
    if es == [] then []
    else
      var init := es[..|es| - 1];
      var r0 := Keys(init);
      assert forall k :: HasKey(es, k) <==> HasKey(init, k) || es[|es| - 1].key == k by {
        forall k | HasKey(init, k) ensures HasKey(es, k) {
          var i :| 0 <= i < |init| && init[i].key == k;
          assert es[i].key == k;
        }
      }
      if es[|es| - 1].key in r0 then r0 else r0 + [es[|es| - 1].key]
  }

  /** Every group, one per key. */
  function Groups(es: seq<Entry>): (r: seq<Group>)
    ensures forall g :: g in r <==> HasKey(es, g.key) && g.total == Total(es, g.key)
    ensures NoDuplicates(r)
  {
    var ks := Keys(es);
    var r := seq(|ks|, i requires 0 <= i < |ks| => Group(ks[i], Total(es, ks[i])));
    assert forall g :: g in r ==> g.key in ks;
    assert forall k :: k in ks ==> Group(k, Total(es, k)) in r by {
      forall k | k in ks ensures Group(k, Total(es, k)) in r {
        var i :| 0 <= i < |ks| && ks[i] == k;
        assert r[i] == Group(k, Total(es, k));
      }
    }
    r
  }

  /** HAVING total > 0. */
  function Having(gs: seq<Group>): (r: seq<Group>)
    ensures forall g :: g in r <==> g in gs && g.total > 0
    ensures NoDuplicates(gs) ==> NoDuplicates(r)
  {
    if gs == [] then []
    else
      var init := gs[..|gs| - 1];
      var last := gs[|gs| - 1];
      assert forall g :: g in gs <==> g in init || g == last;
      assert NoDuplicates(gs) ==> last !in init;
      if last.total > 0 then Having(init) + [last] else Having(init)
  }

  lemma {:induction false} DistinctCounts<T>(xs: seq<T>)
    requires NoDuplicates(xs)
    ensures forall x :: multiset(xs)[x] <= 1
  {
    if xs != [] {
      var init := xs[..|xs| - 1];
      DistinctCounts(init);
      assert xs == init + [xs[|xs| - 1]];
      assert xs[|xs| - 1] !in init;
    }
  }

  /** The grouped and filtered result of a rollup query without ORDER BY. */
  function Aggregate(es: seq<Entry>, positiveOnly: bool): seq<Group>
  {
    if positiveOnly then Having(Groups(es)) else Groups(es)
  }

  /** The same, ordered by the group key. */
  function Rollup(es: seq<Entry>, positiveOnly: bool): seq<Group>
  {
    SortBy(Aggregate(es, positiveOnly), (g: Group) => g.key, false)
  }

  /** An aggregate lists exactly the keys that occur (restricted to positive totals when the
      query has a HAVING total > 0), each once, with its full sum. */
  lemma AggregateMeaning(es: seq<Entry>, positiveOnly: bool)
    ensures var r := Aggregate(es, positiveOnly);
            && (forall g :: g in r <==> HasKey(es, g.key) && g.total == Total(es, g.key) && (positiveOnly ==> g.total > 0))
            && NoDuplicates(r)
            && (forall g, h :: g in r && h in r && g.key == h.key ==> g == h)
  {
  }

  /** A rollup lists exactly the keys that occur (restricted to positive totals when the query
      has a HAVING total > 0), each once with its full sum, in ascending key order. */
  lemma RollupMeaning(es: seq<Entry>, positiveOnly: bool)
    ensures var r := Rollup(es, positiveOnly);
            && (forall g :: g in r <==> HasKey(es, g.key) && g.total == Total(es, g.key) && (positiveOnly ==> g.total > 0))
            && (forall g :: multiset(r)[g] <= 1)
            && (forall g, h :: g in r && h in r && g.key == h.key ==> g == h)
            && Sorted(r, (g: Group) => g.key, false)
  {
    var gs := Aggregate(es, positiveOnly);
    DistinctCounts(gs);
    var r := Rollup(es, positiveOnly);
    assert forall g :: g in r <==> g in gs by {
      forall g ensures g in r <==> g in gs {
        assert g in r <==> g in multiset(r);
      }
    }
  }

  lemma HasKeySnoc(es: seq<Entry>, e: Entry, k: Key)
    ensures HasKey(es + [e], k) <==> HasKey(es, k) || e.key == k
  {
    if HasKey(es, k) {
      var i :| 0 <= i < |es| && es[i].key == k;
      assert (es + [e])[i] == es[i];
    }
    if e.key == k {
      assert (es + [e])[|es|] == e;
    }
  }

  /** Every contribution is positive, so every group of the rollup is. */
  lemma {:induction false} TotalPositive(es: seq<Entry>, k: Key)
    requires forall e :: e in es ==> e.value > 0
    requires HasKey(es, k)
    ensures Total(es, k) > 0
  {
    var init := es[..|es| - 1];
    if es[|es| - 1].key != k {
      var i :| 0 <= i < |es| && es[i].key == k;
      assert init[i].key == k;
      TotalPositive(init, k);
    } else if HasKey(init, k) {
      TotalPositive(init, k);
    } else {
      TotalAbsent(init, k);
    }
  }

  lemma {:induction false} TotalAbsent(es: seq<Entry>, k: Key)
    requires !HasKey(es, k)
    ensures Total(es, k) == 0
  {
    if es != [] {
      var init := es[..|es| - 1];
      assert !HasKey(init, k) by {
        forall i | 0 <= i < |init| ensures init[i].key != k {
          assert es[i] == init[i];
        }
      }
      TotalAbsent(init, k);
    }
  }
}
