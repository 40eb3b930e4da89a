/** Policy lookup: three separate statements, each of which may see a different committed state. */
module Lookup {
  import opened Text
  import opened Normalization
  import opened PolicyModel
  import opened ExchangeModel
  import opened Schema
  import opened Evaluator

  // ---------- ORDER BY ----------

  /** Code-point order on text, the order of the two list queries. */
  predicate Leq(a: string, b: string) {
    a == "" || (b != "" && (a[0] < b[0] || (a[0] == b[0] && Leq(a[1..], b[1..]))))
  }

  /** At position k the texts part: the first ends, or has the smaller character. */
  ghost predicate PartAt(a: string, b: string, k: nat) {
    && k <= |a| && k <= |b| && a[..k] == b[..k]
    && (k == |a| || (k < |b| && a[k] < b[k]))
  }

  /** The order is the lexicographic one, ascending. */
  lemma {:induction false} LeqIsLexicographic(a: string, b: string)
    ensures Leq(a, b) <==> exists k :: PartAt(a, b, k)
  {
    if a == "" {
      assert PartAt(a, b, 0);
    } else if b != "" && a[0] < b[0] {
      assert PartAt(a, b, 0);
    } else if b != "" && a[0] == b[0] {
      LeqIsLexicographic(a[1..], b[1..]);
      assert a == [a[0]] + a[1..] && b == [b[0]] + b[1..];
      if k: nat :| PartAt(a[1..], b[1..], k) {
        assert a[..k + 1] == [a[0]] + a[1..][..k] && b[..k + 1] == [b[0]] + b[1..][..k];
        assert PartAt(a, b, k + 1);
      }
      if k: nat :| PartAt(a, b, k) {
        assert k > 0 && a[..k][1..] == a[1..][..k - 1] && b[..k][1..] == b[1..][..k - 1];
        assert PartAt(a[1..], b[1..], k - 1);
      }
    }
  }

  lemma {:induction false} LeqTotal(a: string, b: string)
    ensures Leq(a, b) || Leq(b, a)
  {
    if a != "" && b != "" && a[0] == b[0] {
      LeqTotal(a[1..], b[1..]);
    }
  }

  lemma {:induction false} LeqAntisymmetric(a: string, b: string)
    requires Leq(a, b) && Leq(b, a)
    ensures a == b
  {
    if a != "" {
      LeqAntisymmetric(a[1..], b[1..]);
      assert a == [a[0]] + a[1..] && b == [b[0]] + b[1..];
    }
  }

  lemma {:induction false} LeqTransitive(a: string, b: string, c: string)
    requires Leq(a, b) && Leq(b, c)
    ensures Leq(a, c)
  {
    if a != "" && a[0] == b[0] && b[0] == c[0] {
      LeqTransitive(a[1..], b[1..], c[1..]);
    }
  }

  predicate Ascending(xs: seq<string>) {
    forall i, j | 0 <= i < j < |xs| :: Leq(xs[i], xs[j])
  }

  function InsertOrdered(xs: seq<string>, x: string): seq<string> {
    if xs == [] || Leq(xs[|xs| - 1], x) then xs + [x]
    else InsertOrdered(xs[..|xs| - 1], x) + [xs[|xs| - 1]]
  }

  lemma {:induction false} InsertOrderedKeeps(xs: seq<string>, x: string)
    ensures multiset(InsertOrdered(xs, x)) == multiset(xs) + multiset{x}
    ensures forall y :: y in InsertOrdered(xs, x) <==> y in xs || y == x
  {
    if xs != [] && !Leq(xs[|xs| - 1], x) {
      var n := |xs| - 1;
      InsertOrderedKeeps(xs[..n], x);
      assert xs == xs[..n] + [xs[n]];
    }
  }

  lemma {:induction false} InsertOrderedAscends(xs: seq<string>, x: string)
    requires Ascending(xs)
    ensures Ascending(InsertOrdered(xs, x))
  {
    if xs == [] || Leq(xs[|xs| - 1], x) {
      forall i | 0 <= i < |xs| ensures Leq(xs[i], x) {
        if i < |xs| - 1 { LeqTransitive(xs[i], xs[|xs| - 1], x); }
      }
    } else {
      var n := |xs| - 1;
      InsertOrderedAscends(xs[..n], x);
      InsertOrderedKeeps(xs[..n], x);
      LeqTotal(xs[n], x);
      assert forall y | y in InsertOrdered(xs[..n], x) :: Leq(y, xs[n]);
    }
  }

  /** Answer of a list query: the names required by one policy, in ascending order. */
  function NamesOf(table: seq<RequirementRow>, policyId: string): seq<string> {
    if table == [] then []
    else
      var n := |table| - 1;
      var names := NamesOf(table[..n], policyId);
      if table[n].policyId == policyId then InsertOrdered(names, table[n].name) else names
  }

  ghost predicate Requires(table: seq<RequirementRow>, policyId: string, name: string) {
    exists r | r in table :: r.policyId == policyId && r.name == name
  }

  lemma {:induction false} NamesOfMembers(table: seq<RequirementRow>, policyId: string)
    requires Unique(RequirementClash, table)
    ensures Ascending(NamesOf(table, policyId)) && NoDuplicates(NamesOf(table, policyId))
    ensures forall x :: x in NamesOf(table, policyId) <==> Requires(table, policyId, x)
  {
    if table != [] {
      var n := |table| - 1;
      var names := NamesOf(table[..n], policyId);
      assert table == table[..n] + [table[n]];
      NamesOfMembers(table[..n], policyId);
      if table[n].policyId == policyId {
        var x := table[n].name;
        InsertOrderedAscends(names, x);
        InsertOrderedKeeps(names, x);
        assert !Requires(table[..n], policyId, x);
        MultisetNoDuplicates(names, x, InsertOrdered(names, x));
      }
    }
  }

  lemma MultisetNoDuplicates(xs: seq<string>, x: string, ys: seq<string>)
    requires NoDuplicates(xs) && x !in xs && multiset(ys) == multiset(xs) + multiset{x}
    ensures NoDuplicates(ys)
  {
    forall i, j | 0 <= i < j < |ys| ensures ys[i] != ys[j] {
      if ys[i] == ys[j] {
        MultisetCountsTwice(ys, i, j);
        MultisetCountsOnce(xs, ys[i]);
      }
    }
  }

  lemma MultisetCountsTwice(ys: seq<string>, i: nat, j: nat)
    requires i < j < |ys| && ys[i] == ys[j]
    ensures multiset(ys)[ys[i]] >= 2
  {
    assert ys == ys[..j] + ys[j..];
    assert ys[..j][i] == ys[i] && ys[j..][0] == ys[j];
    assert ys[i] in multiset(ys[..j]) && ys[j] in multiset(ys[j..]);
  }

  lemma {:induction false} MultisetCountsOnce(xs: seq<string>, x: string)
    requires NoDuplicates(xs)
    ensures multiset(xs)[x] <= 1
  {
    if xs != [] {
      var n := |xs| - 1;
      MultisetCountsOnce(xs[..n], x);
      assert xs == xs[..n] + [xs[n]];
      assert x == xs[n] ==> x !in xs[..n];
    }
  }

  lemma {:induction false} AscendingUnique(xs: seq<string>, ys: seq<string>)
    requires Ascending(xs) && NoDuplicates(xs) && Ascending(ys) && NoDuplicates(ys)
    requires forall x :: x in xs <==> x in ys
    ensures xs == ys
  {
    if ys != [] {
      assert ys[0] in xs;
    }
    if xs != [] {
      var m, n := |xs| - 1, |ys| - 1;
      assert xs[m] in ys;
      var k :| 0 <= k <= n && ys[k] == xs[m];
      assert ys[n] in xs;
      var l :| 0 <= l <= m && xs[l] == ys[n];
      if k < n && l < m {
        LeqAntisymmetric(xs[m], ys[n]);
      }
      assert xs[m] == ys[n];
      SameElementsWithoutLast(xs, ys, xs[..m], ys[..n]);
      AscendingUnique(xs[..m], ys[..n]);
      assert xs == xs[..m] + [xs[m]] && ys == ys[..n] + [ys[n]];
    }
  }

  // ---------- the lookup ----------

  /** What the three statements see, and which of them the infrastructure fails. */
  datatype Reads = Reads(
    policy: Catalog,
    roles: Catalog,
    capabilities: Catalog,
    policyFails: bool,
    rolesFail: bool,
    capabilitiesFail: bool
  )

  /** All three statements see the same state and none fails. */
  function Steady(c: Catalog): Reads {
    Reads(c, c, c, false, false, false)
  }

  datatype LookupResult = Found(policy: Policy) | NotFound | LookupError

  /** First row with the key, as LIMIT 1 over rows in table order. */
  function SelectPolicy(policies: seq<PolicyRow>, key: RouteKey): Option<PolicyRow>
    decreases |policies|
  {
    if policies == [] then None
    else if policies[0].key == key then Some(policies[0])
    else SelectPolicy(policies[1..], key)
  }

  function Assemble(row: PolicyRow, roles: seq<string>, capabilities: seq<string>): Policy {
    Policy(row.id, row.key, row.effect, row.status, row.description, roles, capabilities)
  }

  function LookupOf(seen: Reads, input: RouteKey): LookupResult {
    var row := SelectPolicy(seen.policy.policies, input.Normalized());
    if seen.policyFails then LookupError
    else if row.None? then NotFound
    else if seen.rolesFail || seen.capabilitiesFail then LookupError
    else Found(Assemble(row.value, NamesOf(seen.roles.roles, row.value.id),
                        NamesOf(seen.capabilities.capabilities, row.value.id)))
  }

  method ListNames(rows: seq<string>, fails: bool) returns (names: seq<string>, ok: bool)
    ensures ok == !fails && (ok ==> names == rows)
  {
    names := [];
    for i := 0 to |rows|
      invariant names == rows[..i]
    {
      names := names + [rows[i]];
    }
    ok := !fails;
  }

  method FindByRoute(input: RouteKey, seen: Reads) returns (result: LookupResult)
    ensures result == LookupOf(seen, input)
  {
    var key := input.Normalized();
    if seen.policyFails {
      return LookupError;
    }
    var found := SelectPolicy(seen.policy.policies, key);
    if found.None? {
      return NotFound;
    }
    var roles, rolesOk := ListNames(NamesOf(seen.roles.roles, found.value.id), seen.rolesFail);
    if !rolesOk {
      return LookupError;
    }
    var capabilities, capabilitiesOk :=
      ListNames(NamesOf(seen.capabilities.capabilities, found.value.id), seen.capabilitiesFail);
    if !capabilitiesOk {
      return LookupError;
    }
    return Found(Assemble(found.value, roles, capabilities));
  }

  /** Lookup and evaluation joined; None is an error of the lookup. */
  function PolicyEvaluation(key: RouteKey, found: LookupResult, actorRoles: seq<string>, capabilities: seq<string>)
    : Option<EvaluationResult> {
    match found
    case LookupError => None
    case NotFound => Some(Evaluation(EvaluationInput(key.Normalized(), None, actorRoles, capabilities)))
    case Found(policy) => Some(Evaluation(EvaluationInput(key.Normalized(), Some(policy), actorRoles, capabilities)))
  }

  method EvaluateRequest(key: RouteKey, seen: Reads, actorRoles: seq<string>, capabilities: seq<string>)
    returns (result: Option<EvaluationResult>)
    ensures result == PolicyEvaluation(key, LookupOf(seen, key), actorRoles, capabilities)
  {
    var lookupInput := key.Normalized();
    NormalizedIdempotent(key);
    var found := FindByRoute(lookupInput, seen);
    match found
    case LookupError => return None;
    case NotFound =>
      var evaluation := Evaluate(EvaluationInput(lookupInput, None, actorRoles, capabilities));
      return Some(evaluation);
    case Found(policy) =>
      var evaluation := Evaluate(EvaluationInput(lookupInput, Some(policy), actorRoles, capabilities));
      return Some(evaluation);
  }

  // ---------- the lookup as a finite map ----------

  lemma {:induction false} SelectFinds(policies: seq<PolicyRow>, key: RouteKey)
    ensures match SelectPolicy(policies, key)
            case Some(p) => p in policies && p.key == key
            case None => forall p | p in policies :: p.key != key
    decreases |policies|
  {
    if policies != [] && policies[0].key != key {
      SelectFinds(policies[1..], key);
      assert policies == [policies[0]] + policies[1..];
    }
  }

  /** The unique index makes LIMIT 1 pick the one policy with the key. */
  lemma SelectIsAMap(c: Catalog, key: RouteKey, p: PolicyRow)
    requires ValidCatalog(c)
    ensures SelectPolicy(c.policies, key) == Some(p) <==> p in c.policies && p.key == key
  {
    SelectFinds(c.policies, key);
    if p in c.policies && p.key == key {
      UniqueMembers(PolicyClash, c.policies, p, SelectPolicy(c.policies, key).value);
    }
  }

  ghost predicate SameRows(c: Catalog, d: Catalog) {
    && (forall p :: p in c.policies <==> p in d.policies)
    && (forall r :: r in c.roles <==> r in d.roles)
    && (forall r :: r in c.capabilities <==> r in d.capabilities)
  }

  lemma NamesDetermined(t: seq<RequirementRow>, u: seq<RequirementRow>, policyId: string)
    requires Unique(RequirementClash, t) && Unique(RequirementClash, u)
    requires forall r :: r in t <==> r in u
    ensures NamesOf(t, policyId) == NamesOf(u, policyId)
  {
    NamesOfMembers(t, policyId);
    NamesOfMembers(u, policyId);
    AscendingUnique(NamesOf(t, policyId), NamesOf(u, policyId));
  }

  /** Lookups depend on the rows in the tables only, not on their order. */
  lemma LookupIgnoresRowOrder(c: Catalog, d: Catalog, input: RouteKey)
    requires ValidCatalog(c) && ValidCatalog(d) && SameRows(c, d)
    ensures LookupOf(Steady(c), input) == LookupOf(Steady(d), input)
  {
    var key := input.Normalized();
    SelectFinds(c.policies, key);
    SelectFinds(d.policies, key);
    if p :| SelectPolicy(c.policies, key) == Some(p) {
      SelectIsAMap(d, key, p);
      NamesDetermined(c.roles, d.roles, p.id);
      NamesDetermined(c.capabilities, d.capabilities, p.id);
    }
  }

  lemma PolicyCodesAreCanonical(p: PolicyRow)
    requires PolicyChecks(p)
    ensures Canon(p.key.targetSystem) == p.key.targetSystem && Canon(p.key.verb) == p.key.verb
  {
    CodesAreCanonical();
  }

  /**
   A stored policy can be found by some request exactly when its route and operation have no outer white
   space, and then every request that normalises to its key finds it.
   */
  lemma PolicyIsReachable(c: Catalog, p: PolicyRow)
    requires ValidCatalog(c) && p in c.policies
    ensures (exists input: RouteKey :: SelectPolicy(c.policies, input.Normalized()) == Some(p)) <==>
            Trim(p.key.route) == p.key.route && Trim(p.key.operation) == p.key.operation
    ensures forall input: RouteKey | input.Normalized() == p.key :: SelectPolicy(c.policies, input.Normalized()) == Some(p)
  {
    PolicyCodesAreCanonical(p);
    SelectIsAMap(c, p.key, p);
    if input: RouteKey :| SelectPolicy(c.policies, input.Normalized()) == Some(p) {
      SelectFinds(c.policies, input.Normalized());
      NormalizedIdempotent(input);
    }
    if Trim(p.key.route) == p.key.route && Trim(p.key.operation) == p.key.operation {
      assert p.key.Normalized() == p.key;
    }
  }
}
