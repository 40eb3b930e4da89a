/**
 Normalisation of role and capability lists: canonical forms, blanks dropped,
 first occurrences kept in order. The same loop appears in the policy package and
 in the exchange package and is applied several times along one request.
 */
module Normalization {
  import opened Text

  // ---------- specification ----------

  /** One round of the loop: the canonical form joins the list unless it is blank or already there. */
  function Push(acc: seq<string>, value: string): seq<string> {
    var c := Canon(value);
    if c == "" || c in acc then acc else acc + [c]
  }

  function NormFrom(acc: seq<string>, values: seq<string>): seq<string>
    decreases |values|
  {
    if values == [] then acc else NormFrom(Push(acc, values[0]), values[1..])
  }

  function Norm(values: seq<string>): seq<string> {
    NormFrom([], values)
  }

  /** The canonical forms of the non-blank entries, as a set. */
  function NormSet(values: seq<string>): set<string> {
    set v | v in values && Canon(v) != "" :: Canon(v)
  }

  predicate NoDuplicates(xs: seq<string>) {
    forall i, j | 0 <= i < j < |xs| :: xs[i] != xs[j]
  }

  predicate AllCanonical(xs: seq<string>) {
    forall x | x in xs :: x != "" && Canon(x) == x
  }

  // ---------- the loops ----------

  method NormalizeStringSlice(values: seq<string>) returns (normalized: seq<string>)
    ensures normalized == Norm(values)
  {
    var seen: set<string> := {};
    normalized := [];
    for i := 0 to |values|
      invariant forall x :: x in seen <==> x in normalized
      invariant NormFrom(normalized, values[i..]) == Norm(values)
    {
      assert values[i..][1..] == values[i + 1..];
      var value := Canon(values[i]);
      if value == "" {
        continue;
      }
      if value in seen {
        continue;
      }
      seen := seen + {value};
      normalized := normalized + [value];
    }
  }

  method NormalizeStringSet(values: seq<string>) returns (normalized: set<string>)
    ensures normalized == NormSet(values)
  {
    normalized := {};
    for i := 0 to |values|
      invariant normalized == NormSet(values[..i])
    {
      assert values[..i + 1] == values[..i] + [values[i]];
      var value := Canon(values[i]);
      if value == "" {
        continue;
      }
      normalized := normalized + {value};
    }
    assert values[..|values|] == values;
  }

  // ---------- shape of the result ----------

  lemma NormSetCons(v: string, rest: seq<string>)
    ensures NormSet([v] + rest) == NormSet(rest) + (if Canon(v) == "" then {} else {Canon(v)})
  {
  }

  lemma {:induction false} NormFromShape(acc: seq<string>, values: seq<string>)
    requires NoDuplicates(acc) && AllCanonical(acc)
    ensures NoDuplicates(NormFrom(acc, values)) && AllCanonical(NormFrom(acc, values))
    ensures forall x :: x in NormFrom(acc, values) <==> x in acc || x in NormSet(values)
    decreases |values|
  {
    if values != [] {
      var c := Canon(values[0]);
      CanonIdempotent(values[0]);
      NormFromShape(Push(acc, values[0]), values[1..]);
      assert values == [values[0]] + values[1..];
      NormSetCons(values[0], values[1..]);
    }
  }

  /** The list is duplicate-free, blank-free, canonical, and has exactly the elements of the set version. */
  lemma NormShape(values: seq<string>)
    ensures NoDuplicates(Norm(values)) && AllCanonical(Norm(values))
    ensures forall x :: x in Norm(values) <==> x in NormSet(values)
  {
    NormFromShape([], values);
  }

  // ---------- first-occurrence order ----------

  /** Position of the first entry whose canonical form is x. */
  function FirstIndex(values: seq<string>, x: string): nat
    decreases |values|
  {
    if values == [] || Canon(values[0]) == x then 0 else 1 + FirstIndex(values[1..], x)
  }

  /** xs lists some canonical forms of `values` in the order in which they first appear there. */
  ghost predicate InFirstOrder(values: seq<string>, xs: seq<string>) {
    forall i, j | 0 <= i < j < |xs| :: FirstIndex(values, xs[i]) < FirstIndex(values, xs[j])
  }

  lemma {:induction false} FirstIndexAppend(pre: seq<string>, rest: seq<string>, x: string)
    ensures FirstIndex(pre, x) <= |pre|
    ensures FirstIndex(pre + rest, x) ==
            if FirstIndex(pre, x) < |pre| then FirstIndex(pre, x) else |pre| + FirstIndex(rest, x)
    ensures FirstIndex(pre, x) < |pre| <==> exists v | v in pre :: Canon(v) == x
    decreases |pre|
  {
    if pre == [] {
      assert pre + rest == rest;
    } else {
      assert (pre + rest)[1..] == pre[1..] + rest;
      FirstIndexAppend(pre[1..], rest, x);
      assert pre == [pre[0]] + pre[1..];
    }
  }

  lemma {:induction false} NormFromOrder(pre: seq<string>, acc: seq<string>, values: seq<string>)
    requires InFirstOrder(pre + values, acc)
    requires forall x :: x in acc <==> x in NormSet(pre)
    ensures InFirstOrder(pre + values, NormFrom(acc, values))
    decreases |values|
  {
    if values != [] {
      var v := values[0];
      var c := Canon(v);
      assert pre + values == (pre + [v]) + values[1..];
      assert NormSet(pre + [v]) == NormSet(pre) + (if c == "" then {} else {c});
      if c != "" && c !in acc {
        FirstIndexAppend(pre, values, c);
        forall x | x in acc ensures FirstIndex(pre + values, x) < FirstIndex(pre + values, c) {
          FirstIndexAppend(pre, values, x);
        }
      }
      NormFromOrder(pre + [v], Push(acc, v), values[1..]);
    }
  }

  lemma {:induction false} FirstIndexInjective(values: seq<string>, x: string, y: string)
    requires x in NormSet(values) && y in NormSet(values)
    requires FirstIndex(values, x) == FirstIndex(values, y)
    ensures x == y
    decreases |values|
  {
    if Canon(values[0]) != x && Canon(values[0]) != y {
      assert values == [values[0]] + values[1..];
      FirstIndexInjective(values[1..], x, y);
    }
  }

  lemma SameElementsWithoutLast(xs: seq<string>, ys: seq<string>, a: seq<string>, b: seq<string>)
    requires xs != [] && ys != [] && NoDuplicates(xs) && NoDuplicates(ys)
    requires xs[|xs| - 1] == ys[|ys| - 1] && forall x :: x in xs <==> x in ys
    requires a == xs[..|xs| - 1] && b == ys[..|ys| - 1]
    ensures forall x :: x in a <==> x in b
  {
    forall x ensures x in a <==> x in b {
      InFront(xs, x);
      InFront(ys, x);
    }
  }

  lemma InFront(xs: seq<string>, x: string)
    requires xs != [] && NoDuplicates(xs)
    ensures x in xs[..|xs| - 1] <==> x in xs && x != xs[|xs| - 1]
  {
  }

  /** In two lists of the same elements in first-occurrence order the last elements agree. */
  lemma LastOfFirstOrder(values: seq<string>, xs: seq<string>, ys: seq<string>)
    requires InFirstOrder(values, xs) && InFirstOrder(values, ys) && xs != []
    requires forall x :: x in xs <==> x in ys
    requires forall x | x in xs :: x in NormSet(values)
    ensures ys != [] && xs[|xs| - 1] == ys[|ys| - 1]
  {
    var m, n := |xs| - 1, |ys| - 1;
    assert xs[m] in ys;
    var k :| 0 <= k <= n && ys[k] == xs[m];
    assert ys[n] in xs;
    var l :| 0 <= l <= m && xs[l] == ys[n];
    FirstIndexInjective(values, xs[m], ys[n]);
  }

  /** Two lists of the same elements, both in first-occurrence order, are equal. */
  lemma {:induction false} FirstOrderUnique(values: seq<string>, xs: seq<string>, ys: seq<string>)
    requires InFirstOrder(values, xs) && InFirstOrder(values, ys)
    requires forall x :: x in xs <==> x in ys
    requires forall x | x in xs :: x in NormSet(values)
    ensures xs == ys
  {
    if ys != [] {
      assert ys[0] in xs;
    }
    if xs != [] {
      var m, n := |xs| - 1, |ys| - 1;
      LastOfFirstOrder(values, xs, ys);
      SameElementsWithoutLast(xs, ys, xs[..m], ys[..n]);
      FirstOrderUnique(values, xs[..m], ys[..n]);
      assert xs == xs[..m] + [xs[m]] && ys == ys[..n] + [ys[n]];
    }
  }

  /** Norm is the one list with the elements of NormSet in first-occurrence order. */
  lemma NormCharacterised(values: seq<string>, xs: seq<string>)
    ensures InFirstOrder(values, Norm(values))
    ensures xs == Norm(values) <==>
            InFirstOrder(values, xs) && forall x :: x in xs <==> x in NormSet(values)
  {
    NormShape(values);
    assert [] + values == values;
    NormFromOrder([], [], values);
    if InFirstOrder(values, xs) && forall x :: x in xs <==> x in NormSet(values) {
      FirstOrderUnique(values, xs, Norm(values));
    }
  }

  // ---------- algebra ----------

  lemma {:induction false} NormFromAppend(acc: seq<string>, a: seq<string>, b: seq<string>)
    ensures NormFrom(acc, a + b) == NormFrom(NormFrom(acc, a), b)
    decreases |a|
  {
    if a == [] {
      assert a + b == b;
    } else {
      assert (a + b)[1..] == a[1..] + b;
      NormFromAppend(Push(acc, a[0]), a[1..], b);
    }
  }

  /** Normalising a normalised tail gives what normalising the raw tail gives. */
  lemma {:induction false} NormFromAbsorbs(acc: seq<string>, x: seq<string>, b: seq<string>)
    requires NoDuplicates(acc) && AllCanonical(acc) && NoDuplicates(x) && AllCanonical(x)
    ensures NormFrom(acc, NormFrom(x, b)) == NormFrom(NormFrom(acc, x), b)
    decreases |b|
  {
    if b != [] {
      var c := Canon(b[0]);
      CanonIdempotent(b[0]);
      NormFromShape(acc, x);
      if c in x {
        assert c in NormSet(x);
      } else if c != "" {
        NormFromAppend(acc, x, [c]);
        assert [c][1..] == [];
      }
      assert NormFrom(acc, Push(x, b[0])) == Push(NormFrom(acc, x), b[0]);
      NormFromAbsorbs(acc, Push(x, b[0]), b[1..]);
    }
  }

  /** n(n(v)) = n(v). */
  lemma NormIdempotent(values: seq<string>)
    ensures Norm(Norm(values)) == Norm(values)
  {
    NormFromAbsorbs([], [], values);
  }

  /** n(a + b) = n(n(a) + n(b)). */
  lemma NormConcat(a: seq<string>, b: seq<string>)
    ensures Norm(a + b) == Norm(Norm(a) + Norm(b))
  {
    NormFromAppend([], a, b);
    NormFromAppend([], Norm(a), Norm(b));
    NormIdempotent(a);
    NormShape(a);
    NormFromAbsorbs(Norm(a), [], b);
  }

  lemma NormSetOfNorm(values: seq<string>)
    ensures NormSet(Norm(values)) == NormSet(values)
  {
    NormShape(values);
    forall x ensures x in NormSet(Norm(values)) <==> x in NormSet(values) {
      if x in NormSet(values) {
        assert x in Norm(values) && Canon(x) == x;
      }
    }
  }
}
