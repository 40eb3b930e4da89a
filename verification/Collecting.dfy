/** Roles, capabilities and membership summaries as they are collected from the upstream answers. */
module Collecting {
  import opened Text
  import opened Normalization
  import opened ExchangeModel

  // ---------- what is collected ----------

  function MembershipRoles(memberships: seq<Membership>): seq<string> {
    if memberships == [] then []
    else MembershipRoles(memberships[..|memberships| - 1]) + memberships[|memberships| - 1].roles
  }

  function AllRoles(actor: ActorContext): seq<string> {
    actor.roles + MembershipRoles(actor.memberships)
  }

  function Summarize(m: Membership): MembershipSummary {
    MembershipSummary(if Trim(m.membershipId) == "" then Trim(m.id) else Trim(m.membershipId),
                      m.membershipType, Norm(m.roles))
  }

  function Summaries(memberships: seq<Membership>): seq<MembershipSummary> {
    seq(|memberships|, i requires 0 <= i < |memberships| => Summarize(memberships[i]))
  }

  // ---------- which roles, in which order ----------

  /** The actor has the role itself or by one of its memberships. */
  ghost predicate Brings(actor: ActorContext, role: string) {
    role in actor.roles || exists m | m in actor.memberships :: role in m.roles
  }

  /** Some role that the actor brings spells this code. */
  ghost predicate BroughtBy(actor: ActorContext, code: string) {
    exists role :: Brings(actor, role) && SameCode(role, code)
  }

  /** The k-th list that is collected: the actor's own roles, then those of its memberships. */
  function RoleList(actor: ActorContext, k: nat): seq<string>
    requires k <= |actor.memberships|
  {
    if k == 0 then actor.roles else actor.memberships[k - 1].roles
  }

  /** At position j of the k-th list is a role with that canonical form. */
  ghost predicate Spells(actor: ActorContext, k: nat, j: nat, x: string) {
    k <= |actor.memberships| && j < |RoleList(actor, k)| && Canon(RoleList(actor, k)[j]) == x
  }

  predicate Before(k: nat, j: nat, l: nat, i: nat) {
    k < l || (k == l && j < i)
  }

  /** Some place of the first form is before every place of the second. */
  ghost predicate ComesFirst(actor: ActorContext, x: string, y: string) {
    exists k: nat, j: nat :: Spells(actor, k, j, x) && AllLater(actor, k, j, y)
  }

  ghost predicate AllLater(actor: ActorContext, k: nat, j: nat, y: string) {
    forall l: nat, i: nat | Spells(actor, l, i, y) :: Before(k, j, l, i)
  }

  /**
   The canonical forms of all non-blank roles, once each, in the order in which they first appear: own roles
   first, then the memberships one after the other.
   */
  ghost predicate CollectedFrom(actor: ActorContext, roles: seq<string>) {
    && NoDuplicates(roles)
    && (forall x :: x in roles <==> x != "" && exists k: nat, j: nat :: Spells(actor, k, j, x))
    && (forall a, b | 0 <= a < b < |roles| :: ComesFirst(actor, roles[a], roles[b]))
  }

  /** The first k + 1 lists, one after the other. */
  function Flat(actor: ActorContext, k: nat): seq<string>
    requires k <= |actor.memberships|
  {
    actor.roles + MembershipRoles(actor.memberships[..k])
  }

  /** Where the k-th list starts. */
  function Start(actor: ActorContext, k: nat): nat
    requires k <= |actor.memberships|
  {
    if k == 0 then 0 else |Flat(actor, k - 1)|
  }

  lemma FlatStep(actor: ActorContext, k: nat)
    requires k <= |actor.memberships|
    ensures Flat(actor, k) == (if k == 0 then [] else Flat(actor, k - 1)) + RoleList(actor, k)
    ensures |Flat(actor, k)| == Start(actor, k) + |RoleList(actor, k)|
  {
    if k > 0 {
      assert actor.memberships[..k][..k - 1] == actor.memberships[..k - 1];
    }
  }

  lemma {:induction false} FlatAt(actor: ActorContext, top: nat, k: nat, j: nat)
    requires k <= top <= |actor.memberships| && j < |RoleList(actor, k)|
    ensures Start(actor, k) + j < |Flat(actor, top)| && Flat(actor, top)[Start(actor, k) + j] == RoleList(actor, k)[j]
    decreases top
  {
    FlatStep(actor, top);
    if k < top {
      FlatAt(actor, top - 1, k, j);
    }
  }

  lemma {:induction false} FlatFind(actor: ActorContext, top: nat, n: nat) returns (k: nat, j: nat)
    requires top <= |actor.memberships| && n < |Flat(actor, top)|
    ensures k <= top && j < |RoleList(actor, k)| && Start(actor, k) + j == n
    decreases top
  {
    FlatStep(actor, top);
    if n >= Start(actor, top) {
      k, j := top, n - Start(actor, top);
    } else {
      k, j := FlatFind(actor, top - 1, n);
    }
  }

  lemma {:induction false} StartGrows(actor: ActorContext, k: nat, l: nat)
    requires k < l <= |actor.memberships|
    ensures Start(actor, k) + |RoleList(actor, k)| <= Start(actor, l)
    decreases l
  {
    FlatStep(actor, l - 1);
    if k < l - 1 {
      StartGrows(actor, k, l - 1);
    }
  }

  lemma {:induction false} FirstIndexIsFirst(values: seq<string>, x: string, m: nat)
    requires m < |values| && Canon(values[m]) == x
    ensures FirstIndex(values, x) <= m && Canon(values[FirstIndex(values, x)]) == x
    decreases |values|
  {
    if Canon(values[0]) != x {
      FirstIndexIsFirst(values[1..], x, m - 1);
    }
  }

  lemma AllIsFlat(actor: ActorContext)
    ensures AllRoles(actor) == Flat(actor, |actor.memberships|)
  {
    assert actor.memberships[..|actor.memberships|] == actor.memberships;
  }

  lemma CollectedMembers(actor: ActorContext, x: string)
    ensures x in Norm(AllRoles(actor)) <==> x != "" && exists k: nat, j: nat :: Spells(actor, k, j, x)
  {
    var top := |actor.memberships|;
    var all := AllRoles(actor);
    AllIsFlat(actor);
    NormShape(all);
    if x in Norm(all) {
      var v :| v in all && Canon(v) != "" && Canon(v) == x;
      var n :| 0 <= n < |all| && all[n] == v;
      var k, j := FlatFind(actor, top, n);
      FlatAt(actor, top, k, j);
      assert Spells(actor, k, j, x);
    }
    if k: nat, j: nat :| x != "" && Spells(actor, k, j, x) {
      FlatAt(actor, top, k, j);
      assert RoleList(actor, k)[j] in all;
    }
  }

  lemma LaterPlace(actor: ActorContext, k: nat, j: nat, l: nat, i: nat)
    requires k <= |actor.memberships| && j < |RoleList(actor, k)|
    requires l <= |actor.memberships| && i < |RoleList(actor, l)|
    requires Start(actor, k) + j < Start(actor, l) + i
    ensures Before(k, j, l, i)
  {
    if l < k {
      StartGrows(actor, l, k);
    }
  }

  lemma AllAreLater(actor: ActorContext, k: nat, j: nat, y: string)
    requires k <= |actor.memberships| && j < |RoleList(actor, k)|
    requires Start(actor, k) + j < FirstIndex(AllRoles(actor), y)
    ensures AllLater(actor, k, j, y)
  {
    AllIsFlat(actor);
    forall l: nat, i: nat | Spells(actor, l, i, y) ensures Before(k, j, l, i) {
      FlatAt(actor, |actor.memberships|, l, i);
      FirstIndexIsFirst(AllRoles(actor), y, Start(actor, l) + i);
      LaterPlace(actor, k, j, l, i);
    }
  }

  lemma CollectedOrder(actor: ActorContext, x: string, y: string)
    requires x in Norm(AllRoles(actor)) && FirstIndex(AllRoles(actor), x) < FirstIndex(AllRoles(actor), y)
    ensures ComesFirst(actor, x, y)
  {
    var top := |actor.memberships|;
    var all := AllRoles(actor);
    AllIsFlat(actor);
    NormShape(all);
    var v :| v in all && Canon(v) != "" && Canon(v) == x;
    var m :| 0 <= m < |all| && all[m] == v;
    FirstIndexIsFirst(all, x, m);
    var k, j := FlatFind(actor, top, FirstIndex(all, x));
    FlatAt(actor, top, k, j);
    assert Spells(actor, k, j, x);
    AllAreLater(actor, k, j, y);
  }

  lemma CollectedRolesAre(actor: ActorContext)
    ensures CollectedFrom(actor, Norm(AllRoles(actor)))
  {
    var roles := Norm(AllRoles(actor));
    NormShape(AllRoles(actor));
    NormCharacterised(AllRoles(actor), roles);
    forall x ensures x in roles <==> x != "" && exists k: nat, j: nat :: Spells(actor, k, j, x) {
      CollectedMembers(actor, x);
    }
    forall a, b | 0 <= a < b < |roles| ensures ComesFirst(actor, roles[a], roles[b]) {
      CollectedOrder(actor, roles[a], roles[b]);
    }
  }

  lemma {:induction false} MembershipRolesMembers(memberships: seq<Membership>, v: string)
    ensures v in MembershipRoles(memberships) <==> exists m | m in memberships :: v in m.roles
  {
    if memberships != [] {
      var k := |memberships| - 1;
      MembershipRolesMembers(memberships[..k], v);
      assert memberships == memberships[..k] + [memberships[k]];
    }
  }

  /** A canonical code is collected exactly when the actor brings it, in any spelling. */
  lemma CollectedIffBrought(actor: ActorContext, code: string)
    requires code != "" && Canon(code) == code
    ensures code in NormSet(AllRoles(actor)) <==> BroughtBy(actor, code)
    ensures code in Norm(AllRoles(actor)) <==> BroughtBy(actor, code)
  {
    NormShape(AllRoles(actor));
    forall role ensures Brings(actor, role) <==> role in AllRoles(actor) { MembershipRolesMembers(actor.memberships, role); }
    forall role ensures SameCode(role, code) <==> Canon(role) == code { CanonCharacterised(role, code); }
  }

  lemma SummariesAre(memberships: seq<Membership>)
    ensures forall i | 0 <= i < |memberships| ::
              var summary := Summaries(memberships)[i];
              && summary.id == Trim(if Blank(memberships[i].membershipId) then memberships[i].id else memberships[i].membershipId)
              && summary.membershipType == memberships[i].membershipType
              && (forall x :: x in summary.roles <==> x != "" && exists v | v in memberships[i].roles :: Canon(v) == x)
  {
    forall i | 0 <= i < |memberships|
      ensures Summaries(memberships)[i].id ==
              Trim(if Blank(memberships[i].membershipId) then memberships[i].id else memberships[i].membershipId)
      ensures forall x :: x in Summaries(memberships)[i].roles <==>
                          x != "" && exists v | v in memberships[i].roles :: Canon(v) == x
    {
      TrimEmpty(memberships[i].membershipId);
      NormShape(memberships[i].roles);
    }
  }

  // ---------- the loops ----------

  method CollectActorRoles(actor: ActorContext) returns (roles: seq<string>)
    ensures roles == Norm(AllRoles(actor))
    ensures CollectedFrom(actor, roles)
  {
    var values := actor.roles;
    for i := 0 to |actor.memberships|
      invariant values == actor.roles + MembershipRoles(actor.memberships[..i])
    {
      assert actor.memberships[..i + 1][..i] == actor.memberships[..i];
      values := values + actor.memberships[i].roles;
    }
    assert actor.memberships[..|actor.memberships|] == actor.memberships;
    roles := NormalizeStringSlice(values);
    CollectedRolesAre(actor);
  }

  method CollectCapabilities(capabilities: seq<string>) returns (collected: seq<string>)
    ensures collected == Norm(capabilities)
  {
    var values := [];
    for i := 0 to |capabilities|
      invariant values == capabilities[..i]
    {
      values := values + [capabilities[i]];
    }
    assert capabilities[..|capabilities|] == capabilities;
    collected := NormalizeStringSlice(values);
  }

  method SummarizeMemberships(memberships: seq<Membership>) returns (summary: seq<MembershipSummary>)
    ensures summary == Summaries(memberships)
    ensures |summary| == |memberships|
    ensures forall i | 0 <= i < |summary| ::
              && summary[i].id == Trim(if Blank(memberships[i].membershipId) then memberships[i].id else memberships[i].membershipId)
              && summary[i].membershipType == memberships[i].membershipType
              && (forall x :: x in summary[i].roles <==> x != "" && exists v | v in memberships[i].roles :: Canon(v) == x)
  {
    summary := [];
    for i := 0 to |memberships|
      invariant summary == Summaries(memberships[..i])
    {
      var membership := memberships[i];
      var id := Trim(membership.membershipId);
      if id == "" {
        id := Trim(membership.id);
      }
      var roles := NormalizeStringSlice(membership.roles);
      summary := summary + [MembershipSummary(id, membership.membershipType, roles)];
    }
    assert memberships[..|memberships|] == memberships;
    SummariesAre(memberships);
  }
}
