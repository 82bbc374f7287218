/** ORDER BY over SQL values: a column value is NULL, an integer or text, and SQLite orders
    NULL before integers before text, integers numerically and text by code point. */
module Ordering {
  import opened Schema

  datatype Field = Null | Num(n: int) | Text(s: string)

  /** A sort key: the ORDER BY columns, in order. */
  type Key = seq<Field>

  /** Text order: lexicographic on characters, a proper prefix first. */
  predicate StrLe(a: string, b: string)
  {
    a == [] || (b != [] && (a[0] < b[0] || (a[0] == b[0] && StrLe(a[1..], b[1..]))))
  }

  predicate FieldLe(a: Field, b: Field)
  {
    match (a, b)
    case (Null, _) => true
    case (Num(x), Null) => false
    case (Num(x), Num(y)) => x <= y
    case (Num(x), Text(_)) => true
    case (Text(x), Text(y)) => StrLe(x, y)
    case (Text(_), _) => false
  }

  /** Lexicographic order on keys, column by column. */
  predicate KeyLe(a: Key, b: Key)
  {
    a == [] || (b != [] && FieldLe(a[0], b[0]) && (FieldLe(b[0], a[0]) ==> KeyLe(a[1..], b[1..])))
  }

  lemma {:induction false} StrLeTotal(a: string, b: string)
    ensures StrLe(a, b) || StrLe(b, a)
  {
    if a != [] && b != [] && a[0] == b[0] {
      StrLeTotal(a[1..], b[1..]);
    }
  }

  lemma FieldLeTotal(a: Field, b: Field)
    ensures FieldLe(a, b) || FieldLe(b, a)
  {
    if a.Text? && b.Text? {
      StrLeTotal(a.s, b.s);
    }
  }

  lemma {:induction false} KeyLeTotal(a: Key, b: Key)
    ensures KeyLe(a, b) || KeyLe(b, a)
  {
    if a != [] && b != [] {
      FieldLeTotal(a[0], b[0]);
      KeyLeTotal(a[1..], b[1..]);
    }
  }

  /** `x` comes no later than `y` under ascending (`desc` false) or descending order. */
  predicate InOrder(x: Key, y: Key, desc: bool)
  {
    if desc then KeyLe(y, x) else KeyLe(x, y)
  }

  predicate Sorted<T>(xs: seq<T>, key: T -> Key, desc: bool)
  {
    forall i :: 0 < i < |xs| ==> InOrder(key(xs[i - 1]), key(xs[i]), desc)
  }

  /** Insert `x` into an ordered list after the rows that must precede it. */
  function Insert<T>(x: T, xs: seq<T>, key: T -> Key, desc: bool): (r: seq<T>)
    requires Sorted(xs, key, desc)
    ensures Sorted(r, key, desc)
    ensures multiset(r) == multiset(xs) + multiset{x}
    ensures |r| == |xs| + 1 && r[0] in {x, if xs == [] then x else xs[0]}
  {
    if xs == [] then [x]
    else if InOrder(key(x), key(xs[0]), desc) then [x] + xs
    else
      var rest := Insert(x, xs[1..], key, desc);
      assert InOrder(key(xs[0]), key(x), desc) by {
        KeyLeTotal(key(x), key(xs[0]));
      }
      assert xs == [xs[0]] + xs[1..];
      [xs[0]] + rest
  }

  /** The rows of an ORDER BY: a permutation of the input, ordered by `key`. */
  function SortBy<T>(xs: seq<T>, key: T -> Key, desc: bool): (r: seq<T>)
    ensures Sorted(r, key, desc)
    ensures multiset(r) == multiset(xs)
    ensures |r| == |xs|
  {
    if xs == [] then []
    else
      assert xs == xs[..|xs| - 1] + [xs[|xs| - 1]];
      Insert(xs[|xs| - 1], SortBy(xs[..|xs| - 1], key, desc), key, desc)
  }

  /** A column whose value is NULL when absent. */
  function OptText(o: Option<string>): Field
  {
    if o.Some? then Text(o.value) else Null
  }
}
