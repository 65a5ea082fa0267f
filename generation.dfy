/** Job generation: createCloudlets draws, for each cloudlet in id order, a length and then a
    tenant from one java.util.Random seeded with 42. The generator's arithmetic is not
    modelled: its output is an abstract stream of raw draws, and the k-th call
    nextInt(bound) yields a value below `bound` computed from the k-th raw draw. */
module Generation {
  import opened Cloudlets

  /** The value the k-th call nextInt(bound) returns. */
  function Draw(stream: nat -> nat, k: nat, bound: int): (r: int)
    requires bound > 0
    ensures 0 <= r < bound
  {
    stream(k) % bound
  }

  /** A seeded random source: the stream of raw draws is fixed by the seed, and each call
      consumes the next one. */
  class Random {
    const stream: nat -> nat
    var calls: nat

    constructor (stream: nat -> nat)
      ensures this.stream == stream && calls == 0
    {
      this.stream := stream;
      calls := 0;
    }

    /** nextInt(bound): a value in [0, bound), or IllegalArgumentException (without consuming a
        draw) when the bound is not positive. */
    method NextInt(bound: int) returns (r: Result<int>)
      modifies this
      ensures bound <= 0 ==> r == Failure(IllegalBound(bound)) && calls == old(calls)
      ensures bound > 0 ==> r == Success(Draw(stream, old(calls), bound)) && calls == old(calls) + 1
      ensures r.Success? ==> 0 <= r.value < bound
    {
      if bound <= 0 {
        return Failure(IllegalBound(bound));
      }
      r := Success(Draw(stream, calls, bound));
      calls := calls + 1;
    }
  }

  /** Cloudlet i draws its length with call 2i and its tenant with call 2i + 1. */
  function LengthOf(stream: nat -> nat, i: nat): int
  {
    LengthBase + Draw(stream, 2 * i, LengthRandom)
  }

  function TenantDrawn(stream: nat -> nat, tenants: int, i: nat): int
    requires tenants > 0
  {
    Draw(stream, 2 * i + 1, tenants)
  }

  /** The cloudlets createCloudlets returns for `count` cloudlets: ids 0 .. count - 1 in
      order, each length in [LengthBase, LengthBase + LengthRandom). */
  function Generated(stream: nat -> nat, count: nat): (r: seq<Cloudlet>)
    ensures |r| == count
    ensures forall i :: 0 <= i < count ==> r[i].id == i
    ensures forall i :: 0 <= i < count ==> LengthBase <= r[i].length < LengthBase + LengthRandom
  {
    seq(count, i requires 0 <= i < count => Cloudlet(i, LengthOf(stream, i)))
  }

  /** The entries createCloudlets writes into the tenant table: one per id 0 .. count - 1,
      each a tenant in [0, tenants). */
  function GeneratedTenants(stream: nat -> nat, tenants: int, count: nat): (table: TenantTable)
    requires tenants > 0
    ensures forall i :: i in table <==> 0 <= i < count
    ensures forall i :: i in table ==> 0 <= table[i] < tenants
  {
    map i | 0 <= i < count :: TenantDrawn(stream, tenants, i)
  }

  /** One more loop iteration appends the next cloudlet. */
  lemma GeneratedSnoc(stream: nat -> nat, i: nat)
    ensures Generated(stream, i + 1) == Generated(stream, i) + [Cloudlet(i, LengthOf(stream, i))]
  {
  }

  /** One more loop iteration writes the next tenant into the table. */
  lemma GeneratedTenantsSnoc(stream: nat -> nat, tenants: int, i: nat, earlier: TenantTable)
    requires tenants > 0
    ensures earlier + GeneratedTenants(stream, tenants, i + 1)
      == (earlier + GeneratedTenants(stream, tenants, i))[i := TenantDrawn(stream, tenants, i)]
  {
  }

  /** The generated cloudlets all have a tenant in range once the table holds the generated
      entries. */
  lemma GeneratedInRange(stream: nat -> nat, count: nat, earlier: TenantTable)
    ensures AllInRange(Generated(stream, count), earlier + GeneratedTenants(stream, TenantCount, count))
  {
    var cs := Generated(stream, count);
    var table := earlier + GeneratedTenants(stream, TenantCount, count);
    forall k | 0 <= k < |cs| ensures InRangeTenant(table, cs[k]) {
      assert cs[k].id == k && k in GeneratedTenants(stream, TenantCount, count);
    }
  }
}
