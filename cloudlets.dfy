/** The data the scheduling step works on: cloudlets (jobs), the tenant table that
    labels them, the simulation's constants, and the error outcomes of the Java code. */
module Cloudlets {

  /** Number of tenants the simulation labels jobs with (TENANT_COUNT). */
  const TenantCount: nat := 4
  /** Number of cloudlets created per run (CLOUDLET_COUNT). */
  const CloudletCount: nat := 20
  /** Every cloudlet length is LengthBase plus a draw below LengthRandom. */
  const LengthBase: int := 40000
  const LengthRandom: int := 10000

  /** A cloudlet as the scheduling step sees it: its id and its length in instructions.
      Its tenant is not a field: it is looked up in the tenant table by id. */
  datatype Cloudlet = Cloudlet(id: int, length: int)

  /** The static map from cloudlet id to tenant id. */
  type TenantTable = map<int, int>

  /** The Java exceptions the modelled code can raise:
      unboxing a tenant id that the table lacks (NullPointerException), and
      Random.nextInt with a bound that is not positive (IllegalArgumentException). */
  datatype SimError = MissingTenant(cloudletId: int) | IllegalBound(bound: int)

  datatype Result<T> = Success(value: T) | Failure(error: SimError)

  /** `c` is labelled with tenant `t` in the table. */
  predicate HasTenant(tenantOf: TenantTable, c: Cloudlet, t: int)
  {
    c.id in tenantOf && tenantOf[c.id] == t
  }

  /** `c` is labelled with one of the tenants 0 .. TenantCount-1. */
  predicate InRangeTenant(tenantOf: TenantTable, c: Cloudlet)
  {
    c.id in tenantOf && 0 <= tenantOf[c.id] < TenantCount
  }

  /** Every cloudlet of `cs` has an entry in the tenant table. */
  predicate AllMapped(cs: seq<Cloudlet>, tenantOf: TenantTable)
  {
    forall k :: 0 <= k < |cs| ==> cs[k].id in tenantOf
  }

  /** Every cloudlet of `cs` is labelled with a tenant in range. */
  predicate AllInRange(cs: seq<Cloudlet>, tenantOf: TenantTable)
  {
    forall k :: 0 <= k < |cs| ==> InRangeTenant(tenantOf, cs[k])
  }
}
