/** The "TenantAware" policy: cloudlets are grouped by tenant in list order, then emitted in
    rounds; round i takes the i-th cloudlet of tenant 0, 1, ..., TenantCount - 1, skipping
    tenants that have fewer than i + 1 cloudlets. */
module TenantAware {
  import opened Cloudlets

  /** The cloudlets of `s` labelled with tenant `t`, in their order in `s`. */
  function OfTenant(s: seq<Cloudlet>, tenantOf: TenantTable, t: int): seq<Cloudlet>
  {
    if s == [] then []
    else
      var last := s[|s| - 1];
      OfTenant(s[..|s| - 1], tenantOf, t) + (if HasTenant(tenantOf, last, t) then [last] else [])
  }

  /** Filtering by tenant keeps only that tenant's cloudlets, and no more than there were. */
  lemma {:induction false} OfTenantHasTenant(s: seq<Cloudlet>, tenantOf: TenantTable, t: int)
    ensures |OfTenant(s, tenantOf, t)| <= |s|
    ensures forall k :: 0 <= k < |OfTenant(s, tenantOf, t)| ==> HasTenant(tenantOf, OfTenant(s, tenantOf, t)[k], t)
  {
    if s != [] {
      OfTenantHasTenant(s[..|s| - 1], tenantOf, t);
    }
  }

  /** The cloudlets of `s` labelled with a tenant in range, in their order in `s`. */
  function InRange(s: seq<Cloudlet>, tenantOf: TenantTable): (r: seq<Cloudlet>)
    ensures |r| <= |s|
    ensures AllInRange(r, tenantOf)
  {
    if s == [] then []
    else
      var last := s[|s| - 1];
      InRange(s[..|s| - 1], tenantOf) + (if InRangeTenant(tenantOf, last) then [last] else [])
  }

  /** getOrDefault(t, emptyList) on the map of groups. */
  function Group(groups: map<int, seq<Cloudlet>>, t: int): seq<Cloudlet>
  {
    if t in groups then groups[t] else []
  }

  /** The map of groups that `computeIfAbsent(tenant, new list).add(c)` builds over `cs`. */
  function GroupsOf(cs: seq<Cloudlet>, tenantOf: TenantTable): map<int, seq<Cloudlet>>
    requires AllMapped(cs, tenantOf)
  {
    if cs == [] then map[]
    else
      var c := cs[|cs| - 1];
      var groups := GroupsOf(cs[..|cs| - 1], tenantOf);
      groups[tenantOf[c.id] := Group(groups, tenantOf[c.id]) + [c]]
  }

  lemma GroupsOfSnoc(cs: seq<Cloudlet>, tenantOf: TenantTable, k: int)
    requires 0 <= k < |cs| && AllMapped(cs[..k + 1], tenantOf)
    ensures AllMapped(cs[..k], tenantOf)
    ensures GroupsOf(cs[..k + 1], tenantOf) ==
      GroupsOf(cs[..k], tenantOf)[tenantOf[cs[k].id] := Group(GroupsOf(cs[..k], tenantOf), tenantOf[cs[k].id]) + [cs[k]]]
  {
    assert cs[..k + 1][..k] == cs[..k];
  }

  /** Grouping files every cloudlet under its tenant, in list order: tenant t is a key exactly
      when some cloudlet has tenant t, and its list is that tenant's cloudlets in order. */
  lemma {:induction false} GroupsOfByTenant(cs: seq<Cloudlet>, tenantOf: TenantTable)
    requires AllMapped(cs, tenantOf)
    ensures forall t :: Group(GroupsOf(cs, tenantOf), t) == OfTenant(cs, tenantOf, t)
    ensures forall t :: t in GroupsOf(cs, tenantOf) <==> OfTenant(cs, tenantOf, t) != []
  {
    if cs != [] {
      var init, c := cs[..|cs| - 1], cs[|cs| - 1];
      assert AllMapped(init, tenantOf);
      GroupsOfByTenant(init, tenantOf);
      forall t ensures OfTenant(cs, tenantOf, t) ==
        OfTenant(init, tenantOf, t) + (if HasTenant(tenantOf, c, t) then [c] else []) {
        OfTenantSnoc(init, c, tenantOf, t);
        assert init + [c] == cs;
      }
    }
  }

  /** Every list in `groups` holds only cloudlets of the tenant it is filed under. */
  ghost predicate WellGrouped(groups: map<int, seq<Cloudlet>>, tenantOf: TenantTable)
  {
    forall t, k :: 0 <= k < |Group(groups, t)| ==> HasTenant(tenantOf, Group(groups, t)[k], t)
  }

  lemma GroupsOfWellGrouped(cs: seq<Cloudlet>, tenantOf: TenantTable)
    requires AllMapped(cs, tenantOf)
    ensures WellGrouped(GroupsOf(cs, tenantOf), tenantOf)
    ensures forall t :: |Group(GroupsOf(cs, tenantOf), t)| <= |cs|
  {
    GroupsOfByTenant(cs, tenantOf);
    forall t ensures |OfTenant(cs, tenantOf, t)| <= |cs|
      && forall k :: 0 <= k < |OfTenant(cs, tenantOf, t)| ==> HasTenant(tenantOf, OfTenant(cs, tenantOf, t)[k], t)
    {
      OfTenantHasTenant(cs, tenantOf, t);
    }
  }

  /** The i-th cloudlet of each of the tenants 0 .. upTo - 1 that has one, in tenant order. */
  function Round(groups: map<int, seq<Cloudlet>>, i: nat, upTo: nat): seq<Cloudlet>
  {
    if upTo == 0 then []
    else
      var g := Group(groups, upTo - 1);
      Round(groups, i, upTo - 1) + (if i < |g| then [g[i]] else [])
  }

  /** Rounds 0 .. n - 1 over tenants 0 .. TenantCount - 1, one after the other. */
  function Rounds(groups: map<int, seq<Cloudlet>>, n: nat): seq<Cloudlet>
  {
    if n == 0 then [] else Rounds(groups, n - 1) + Round(groups, n - 1, TenantCount)
  }

  /** The first n elements of `s`, or all of it. */
  function Take(s: seq<Cloudlet>, n: nat): seq<Cloudlet>
  {
    if n <= |s| then s[..n] else s
  }

  /** Round n - 1 adds the n-th cloudlet of a group, if it has one, to the first n - 1. */
  lemma TakeExtend(prefix: seq<Cloudlet>, g: seq<Cloudlet>, n: nat, next: seq<Cloudlet>)
    requires 0 < n && prefix == Take(g, n - 1)
    requires next == if n - 1 < |g| then [g[n - 1]] else []
    ensures prefix + next == Take(g, n)
  {
    if n <= |g| {
      assert g[..n] == g[..n - 1] + [g[n - 1]];
    }
  }

  /** What the TenantAware branch produces from a list whose cloudlets all have a tenant.
      (The code runs as many rounds as the largest group; RoundsPadding shows that any number
      of rounds at least that large gives the same list.) */
  function TenantAwareOrder(cs: seq<Cloudlet>, tenantOf: TenantTable): seq<Cloudlet>
    requires AllMapped(cs, tenantOf)
  {
    Rounds(GroupsOf(cs, tenantOf), |cs|)
  }

  /** `k` is the position of the first cloudlet in `cs` that the tenant table lacks. */
  predicate FirstUnmapped(cs: seq<Cloudlet>, tenantOf: TenantTable, k: int)
  {
    0 <= k < |cs| && cs[k].id !in tenantOf && AllMapped(cs[..k], tenantOf)
  }

  // ---------------------------------------------------------------------------------------
  // The three loops of the TenantAware branch

  /** The grouping loop: looks every cloudlet's tenant up in the table and appends the
      cloudlet to that tenant's list; a cloudlet without an entry ends the step with the
      unboxing error. */
  method GroupByTenant(cs: seq<Cloudlet>, tenantOf: TenantTable)
    returns (r: Result<map<int, seq<Cloudlet>>>)
    ensures r.Success? <==> AllMapped(cs, tenantOf)
    ensures r.Success? ==> r.value == GroupsOf(cs, tenantOf)
    ensures r.Failure? ==> exists k :: FirstUnmapped(cs, tenantOf, k) && r.error == MissingTenant(cs[k].id)
  {
    var groups: map<int, seq<Cloudlet>> := map[];
    var k := 0;
    while k < |cs|
      invariant 0 <= k <= |cs|
      invariant AllMapped(cs[..k], tenantOf)
      invariant groups == GroupsOf(cs[..k], tenantOf)
    {
      var c := cs[k];
      if c.id !in tenantOf {
        assert FirstUnmapped(cs, tenantOf, k);
        return Failure(MissingTenant(c.id));
      }
      var t := tenantOf[c.id];
      groups := groups[t := Group(groups, t) + [c]];
      GroupsOfSnoc(cs, tenantOf, k);
      k := k + 1;
    }
    assert cs[..k] == cs;
    r := Success(groups);
  }

  /** A non-empty set has an element (stated for the `:|` choices below). */
  lemma HasElement(s: set<int>)
    requires s != {}
    ensures exists x :: x in s
  {
    if forall x :: x !in s {
      assert false;
    }
  }

  /** The loop over the map's values that computes maxCloudletsPerTenant. */
  method LargestGroup(groups: map<int, seq<Cloudlet>>) returns (m: nat)
    ensures forall t :: t in groups ==> |groups[t]| <= m
    ensures groups.Keys == {} ==> m == 0
    ensures groups.Keys != {} ==> exists t :: t in groups && |groups[t]| == m
  {
    m := 0;
    var unseen := groups.Keys;
    while unseen != {}
      invariant unseen <= groups.Keys
      invariant forall t :: t in groups && t !in unseen ==> |groups[t]| <= m
      invariant m == 0 || exists t :: t in groups && |groups[t]| == m
      decreases unseen
    {
      HasElement(unseen);
      var t :| t in unseen;
      if |groups[t]| > m {
        m := |groups[t]|;
      }
      unseen := unseen - {t};
    }
    if groups.Keys != {} && m == 0 {
      HasElement(groups.Keys);
      var t :| t in groups.Keys;
      assert |groups[t]| == 0;
    }
  }

  /** The nested loops that emit `rounds` rounds over tenants 0 .. TenantCount - 1. */
  method EmitRounds(groups: map<int, seq<Cloudlet>>, rounds: nat) returns (out: seq<Cloudlet>)
    ensures out == Rounds(groups, rounds)
  {
    out := [];
    var i := 0;
    while i < rounds
      invariant 0 <= i <= rounds
      invariant out == Rounds(groups, i)
    {
      var t := 0;
      while t < TenantCount
        invariant 0 <= t <= TenantCount
        invariant out == Rounds(groups, i) + Round(groups, i, t)
      {
        var tcl := Group(groups, t);
        ghost var prefix := Rounds(groups, i);
        ghost var round := Round(groups, i, t);
        if i < |tcl| {
          out := out + [tcl[i]];
          assert out == prefix + (round + [tcl[i]]);
        }
        assert Round(groups, i, t + 1) == round + if i < |tcl| then [tcl[i]] else [];
        t := t + 1;
      }
      i := i + 1;
    }
  }

  /** The TenantAware branch as a whole. */
  method OrderByTenant(cs: seq<Cloudlet>, tenantOf: TenantTable) returns (r: Result<seq<Cloudlet>>)
    ensures r.Success? <==> AllMapped(cs, tenantOf)
    ensures r.Success? ==> r.value == TenantAwareOrder(cs, tenantOf)
    ensures r.Failure? ==> exists k :: FirstUnmapped(cs, tenantOf, k) && r.error == MissingTenant(cs[k].id)
  {
    var grouped := GroupByTenant(cs, tenantOf);
    if grouped.Failure? {
      return Failure(grouped.error);
    }
    var groups := grouped.value;
    var rounds := LargestGroup(groups);
    assert forall t :: t in groups ==> groups[t] == Group(groups, t);
    var out := EmitRounds(groups, rounds);
    GroupsOfWellGrouped(cs, tenantOf);
    forall t | 0 <= t < TenantCount ensures |Group(groups, t)| <= rounds {
    }
    if groups.Keys != {} {
      var t :| t in groups && |groups[t]| == rounds;
      assert rounds <= |cs|;
    }
    RoundsPadding(groups, rounds, |cs|);
    r := Success(out);
  }

  // ---------------------------------------------------------------------------------------
  // Lemmas about the filters

  lemma {:induction false} OfTenantAppend(s: seq<Cloudlet>, u: seq<Cloudlet>, tenantOf: TenantTable, t: int)
    ensures OfTenant(s + u, tenantOf, t) == OfTenant(s, tenantOf, t) + OfTenant(u, tenantOf, t)
  {
    if u == [] {
      assert s + u == s;
    } else {
      var init := u[..|u| - 1];
      assert (s + u)[..|s + u| - 1] == s + init;
      OfTenantAppend(s, init, tenantOf, t);
    }
  }

  lemma {:induction false} OfTenantOfOneTenant(s: seq<Cloudlet>, tenantOf: TenantTable, t: int)
    requires forall k :: 0 <= k < |s| ==> HasTenant(tenantOf, s[k], t)
    ensures OfTenant(s, tenantOf, t) == s
  {
    if s != [] {
      var init, c := s[..|s| - 1], s[|s| - 1];
      assert forall k :: 0 <= k < |init| ==> init[k] == s[k];
      OfTenantOfOneTenant(init, tenantOf, t);
      assert HasTenant(tenantOf, c, t);
      calc {
        OfTenant(s, tenantOf, t);
        OfTenant(init, tenantOf, t) + [c];
        init + [c];
        s;
      }
    }
  }

  lemma {:induction false} InRangeOfAllInRange(s: seq<Cloudlet>, tenantOf: TenantTable)
    requires AllInRange(s, tenantOf)
    ensures InRange(s, tenantOf) == s
  {
    if s != [] {
      var init, c := s[..|s| - 1], s[|s| - 1];
      assert forall k :: 0 <= k < |init| ==> init[k] == s[k];
      InRangeOfAllInRange(init, tenantOf);
      assert InRangeTenant(tenantOf, c);
      assert init + [c] == s;
    }
  }

  lemma OfTenantSnoc(s: seq<Cloudlet>, c: Cloudlet, tenantOf: TenantTable, t: int)
    ensures OfTenant(s + [c], tenantOf, t) ==
      OfTenant(s, tenantOf, t) + (if HasTenant(tenantOf, c, t) then [c] else [])
  {
    assert (s + [c])[..|s + [c]| - 1] == s;
  }

  /** How often `x` occurs among the in-range cloudlets of `s` is how often it occurs among
      the cloudlets of its own tenant. */
  lemma {:induction false} CountThroughTenant(s: seq<Cloudlet>, tenantOf: TenantTable, x: Cloudlet)
    ensures multiset(InRange(s, tenantOf))[x] ==
      if InRangeTenant(tenantOf, x) then multiset(OfTenant(s, tenantOf, tenantOf[x.id]))[x] else 0
  {
    if s != [] {
      var init := s[..|s| - 1];
      CountThroughTenant(init, tenantOf, x);
    }
  }

  // ---------------------------------------------------------------------------------------
  // Lemmas about rounds

  lemma {:induction false} RoundOfTenant(groups: map<int, seq<Cloudlet>>, tenantOf: TenantTable, i: nat, upTo: nat, t: int)
    requires WellGrouped(groups, tenantOf)
    ensures OfTenant(Round(groups, i, upTo), tenantOf, t) ==
      if 0 <= t < upTo && i < |Group(groups, t)| then [Group(groups, t)[i]] else []
  {
    if upTo > 0 {
      var u := upTo - 1;
      var g := Group(groups, u);
      var earlier := Round(groups, i, u);
      RoundOfTenant(groups, tenantOf, i, u, t);
      if i < |g| {
        var c := g[i];
        assert Round(groups, i, upTo) == earlier + [c];
        OfTenantSnoc(earlier, c, tenantOf, t);
        assert HasTenant(tenantOf, c, u);
        if t == u {
          assert OfTenant(earlier + [c], tenantOf, t) == OfTenant(earlier, tenantOf, t) + [c];
        } else {
          assert OfTenant(earlier + [c], tenantOf, t) == OfTenant(earlier, tenantOf, t);
        }
      } else {
        assert Round(groups, i, upTo) == earlier;
      }
    }
  }

  /** One more round adds to a tenant's share the next cloudlet of its group, if any. */
  lemma RoundsOfTenantStep(earlier: seq<Cloudlet>, last: seq<Cloudlet>, tenantOf: TenantTable, t: int, g: seq<Cloudlet>, n: nat)
    requires 0 < n
    requires OfTenant(earlier, tenantOf, t) == if 0 <= t < TenantCount then Take(g, n - 1) else []
    requires OfTenant(last, tenantOf, t) == if 0 <= t < TenantCount && n - 1 < |g| then [g[n - 1]] else []
    ensures OfTenant(earlier + last, tenantOf, t) == if 0 <= t < TenantCount then Take(g, n) else []
  {
    OfTenantAppend(earlier, last, tenantOf, t);
    if 0 <= t < TenantCount {
      TakeExtend(OfTenant(earlier, tenantOf, t), g, n, OfTenant(last, tenantOf, t));
    }
  }

  lemma RoundsOfTenant(groups: map<int, seq<Cloudlet>>, tenantOf: TenantTable, n: nat, t: int)
    requires WellGrouped(groups, tenantOf)
    ensures OfTenant(Rounds(groups, n), tenantOf, t) ==
      if 0 <= t < TenantCount then Take(Group(groups, t), n) else []
  {
    forall i: nat | i < n
      ensures OfTenant(Round(groups, i, TenantCount), tenantOf, t) ==
        if 0 <= t < TenantCount && i < |Group(groups, t)| then [Group(groups, t)[i]] else []
    {
      RoundOfTenant(groups, tenantOf, i, TenantCount, t);
    }
    RoundsOfTenantUpTo(groups, tenantOf, n, t);
  }

  /** A tenant's share of the first n rounds, given its share of each of them. */
  lemma {:induction false} RoundsOfTenantUpTo(groups: map<int, seq<Cloudlet>>, tenantOf: TenantTable, n: nat, t: int)
    requires forall i: nat :: i < n ==>
      OfTenant(Round(groups, i, TenantCount), tenantOf, t) ==
        if 0 <= t < TenantCount && i < |Group(groups, t)| then [Group(groups, t)[i]] else []
    ensures OfTenant(Rounds(groups, n), tenantOf, t) ==
      if 0 <= t < TenantCount then Take(Group(groups, t), n) else []
  {
    if n == 0 {
      assert Take(Group(groups, t), 0) == [];
    } else {
      RoundsOfTenantUpTo(groups, tenantOf, n - 1, t);
      RoundsOfTenantNext(groups, tenantOf, n, t);
    }
  }

  /** The step of RoundsOfTenant from n - 1 rounds to n, given what the first n - 1 rounds
      and round n - 1 hold of tenant t. */
  lemma RoundsOfTenantNext(groups: map<int, seq<Cloudlet>>, tenantOf: TenantTable, n: nat, t: int)
    requires 0 < n
    requires OfTenant(Rounds(groups, n - 1), tenantOf, t) ==
      if 0 <= t < TenantCount then Take(Group(groups, t), n - 1) else []
    requires OfTenant(Round(groups, n - 1, TenantCount), tenantOf, t) ==
      if 0 <= t < TenantCount && n - 1 < |Group(groups, t)| then [Group(groups, t)[n - 1]] else []
    ensures OfTenant(Rounds(groups, n), tenantOf, t) ==
      if 0 <= t < TenantCount then Take(Group(groups, t), n) else []
  {
    var earlier, last := Rounds(groups, n - 1), Round(groups, n - 1, TenantCount);
    assert Rounds(groups, n) == earlier + last;
    RoundsOfTenantStep(earlier, last, tenantOf, t, Group(groups, t), n);
  }

  lemma {:induction false} RoundsInRange(groups: map<int, seq<Cloudlet>>, tenantOf: TenantTable, n: nat)
    requires WellGrouped(groups, tenantOf)
    ensures AllInRange(Rounds(groups, n), tenantOf)
  {
    if n > 0 {
      RoundsInRange(groups, tenantOf, n - 1);
      RoundAscendingUpTo(groups, tenantOf, n - 1, TenantCount);
    }
  }

  lemma {:induction false} RoundPastEveryGroup(groups: map<int, seq<Cloudlet>>, i: nat, upTo: nat)
    requires forall t :: 0 <= t < upTo ==> |Group(groups, t)| <= i
    ensures Round(groups, i, upTo) == []
  {
    if upTo > 0 {
      RoundPastEveryGroup(groups, i, upTo - 1);
    }
  }

  /** Rounds past the largest in-range group add nothing. */
  lemma {:induction false} RoundsPadding(groups: map<int, seq<Cloudlet>>, n: nat, m: nat)
    requires n <= m
    requires forall t :: 0 <= t < TenantCount ==> |Group(groups, t)| <= n
    ensures Rounds(groups, m) == Rounds(groups, n)
  {
    if n < m {
      RoundsPadding(groups, n, m - 1);
      RoundPastEveryGroup(groups, m - 1, TenantCount);
    }
  }

  lemma {:induction false} RoundsPrefix(groups: map<int, seq<Cloudlet>>, k: nat, n: nat)
    requires k <= n
    ensures Rounds(groups, k) <= Rounds(groups, n)
  {
    if k < n {
      RoundsPrefix(groups, k, n - 1);
    }
  }

  lemma {:induction false} RoundAscendingUpTo(groups: map<int, seq<Cloudlet>>, tenantOf: TenantTable, i: nat, upTo: nat)
    requires WellGrouped(groups, tenantOf)
    ensures forall k :: 0 <= k < |Round(groups, i, upTo)| ==>
      Round(groups, i, upTo)[k].id in tenantOf && 0 <= tenantOf[Round(groups, i, upTo)[k].id] < upTo
    ensures forall p, q :: 0 <= p < q < |Round(groups, i, upTo)| ==>
      tenantOf[Round(groups, i, upTo)[p].id] < tenantOf[Round(groups, i, upTo)[q].id]
  {
    if upTo > 0 {
      RoundAscendingUpTo(groups, tenantOf, i, upTo - 1);
      var g := Group(groups, upTo - 1);
      if i < |g| {
        assert HasTenant(tenantOf, g[i], upTo - 1);
      }
    }
  }

  // ---------------------------------------------------------------------------------------
  // What TenantAware promises

  /** Each in-range tenant's cloudlets come out in the order they went in, and a cloudlet
      whose tenant is out of range does not come out at all. */
  lemma TenantAwareKeepsTenantOrder(cs: seq<Cloudlet>, tenantOf: TenantTable, t: int)
    requires AllMapped(cs, tenantOf)
    ensures OfTenant(TenantAwareOrder(cs, tenantOf), tenantOf, t) ==
      if 0 <= t < TenantCount then OfTenant(cs, tenantOf, t) else []
  {
    var groups := GroupsOf(cs, tenantOf);
    GroupsOfByTenant(cs, tenantOf);
    GroupsOfWellGrouped(cs, tenantOf);
    RoundsOfTenant(groups, tenantOf, |cs|, t);
  }

  /** The output is a permutation of the cloudlets whose tenant is in range. */
  lemma TenantAwareKeepsInRange(cs: seq<Cloudlet>, tenantOf: TenantTable)
    requires AllMapped(cs, tenantOf)
    ensures multiset(TenantAwareOrder(cs, tenantOf)) == multiset(InRange(cs, tenantOf))
  {
    var out := TenantAwareOrder(cs, tenantOf);
    GroupsOfWellGrouped(cs, tenantOf);
    RoundsInRange(GroupsOf(cs, tenantOf), tenantOf, |cs|);
    InRangeOfAllInRange(out, tenantOf);
    forall x ensures multiset(out)[x] == multiset(InRange(cs, tenantOf))[x] {
      CountThroughTenant(out, tenantOf, x);
      CountThroughTenant(cs, tenantOf, x);
      if InRangeTenant(tenantOf, x) {
        TenantAwareKeepsTenantOrder(cs, tenantOf, tenantOf[x.id]);
      }
    }
    assert multiset(out) == multiset(InRange(cs, tenantOf));
  }

  /** When every tenant is in range, the output is a permutation of the input. */
  lemma TenantAwarePermutation(cs: seq<Cloudlet>, tenantOf: TenantTable)
    requires AllInRange(cs, tenantOf)
    ensures multiset(TenantAwareOrder(cs, tenantOf)) == multiset(cs)
    ensures |TenantAwareOrder(cs, tenantOf)| == |cs|
  {
    TenantAwareKeepsInRange(cs, tenantOf);
    InRangeOfAllInRange(cs, tenantOf);
    assert |multiset(TenantAwareOrder(cs, tenantOf))| == |multiset(cs)|;
  }

  /** Bounded interleaving: the output begins with k complete rounds, and after them every
      in-range tenant has had exactly its first k cloudlets (or all of them) placed. So the
      i-th cloudlet of any tenant comes before the (i + 1)-th cloudlet of every tenant. */
  lemma TenantAwareFairRounds(cs: seq<Cloudlet>, tenantOf: TenantTable, k: nat)
    requires AllMapped(cs, tenantOf)
    requires k <= |cs|
    ensures Rounds(GroupsOf(cs, tenantOf), k) <= TenantAwareOrder(cs, tenantOf)
    ensures forall t :: 0 <= t < TenantCount ==>
      OfTenant(Rounds(GroupsOf(cs, tenantOf), k), tenantOf, t) == Take(OfTenant(cs, tenantOf, t), k)
  {
    var groups := GroupsOf(cs, tenantOf);
    GroupsOfByTenant(cs, tenantOf);
    GroupsOfWellGrouped(cs, tenantOf);
    RoundsPrefix(groups, k, |cs|);
    forall t | 0 <= t < TenantCount
      ensures OfTenant(Rounds(groups, k), tenantOf, t) == Take(OfTenant(cs, tenantOf, t), k)
    {
      RoundsOfTenant(groups, tenantOf, k, t);
    }
  }

  /** Within a round, tenants appear in strictly ascending id order. */
  lemma TenantAwareRoundAscending(cs: seq<Cloudlet>, tenantOf: TenantTable, i: nat)
    requires AllMapped(cs, tenantOf)
    ensures forall k :: 0 <= k < |Round(GroupsOf(cs, tenantOf), i, TenantCount)| ==>
      InRangeTenant(tenantOf, Round(GroupsOf(cs, tenantOf), i, TenantCount)[k])
    ensures forall p, q :: 0 <= p < q < |Round(GroupsOf(cs, tenantOf), i, TenantCount)| ==>
      var x, y := Round(GroupsOf(cs, tenantOf), i, TenantCount)[p], Round(GroupsOf(cs, tenantOf), i, TenantCount)[q];
      x.id in tenantOf && y.id in tenantOf && tenantOf[x.id] < tenantOf[y.id]
  {
    GroupsOfWellGrouped(cs, tenantOf);
    RoundAscendingUpTo(GroupsOf(cs, tenantOf), tenantOf, i, TenantCount);
  }

  /** With one in-range tenant (or no cloudlets at all), TenantAware changes nothing. */
  lemma TenantAwareSingleTenant(cs: seq<Cloudlet>, tenantOf: TenantTable, t: int)
    requires 0 <= t < TenantCount
    requires AllMapped(cs, tenantOf)
    requires forall k :: 0 <= k < |cs| ==> tenantOf[cs[k].id] == t
    ensures TenantAwareOrder(cs, tenantOf) == cs
  {
    var out := TenantAwareOrder(cs, tenantOf);
    TenantAwareKeepsTenantOrder(cs, tenantOf, t);
    OfTenantOfOneTenant(cs, tenantOf, t);
    assert AllInRange(cs, tenantOf);
    TenantAwarePermutation(cs, tenantOf);
    forall k | 0 <= k < |out| ensures HasTenant(tenantOf, out[k], t) {
      assert out[k] in multiset(cs);
    }
    OfTenantOfOneTenant(out, tenantOf, t);
  }
}
