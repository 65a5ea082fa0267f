/** The job-ordering part of MultiTenantFaaS.runSimulation: the cloudlets are created, their
    tenants recorded in the static tenant table, and the list is reordered by the scheduling
    policy named by the algorithm string before it is handed to the broker. */
module MultiTenantFaaS {
  import opened Cloudlets
  import opened Generation
  import opened ShortestJobFirst
  import opened TenantAware

  /** The simulation's static state: the map from cloudlet id to tenant id. */
  class Simulation {
    var tenantOf: TenantTable

    constructor ()
      ensures tenantOf == map[]
    {
      tenantOf := map[];
    }

    /** createCloudlets(count, tenants): cloudlets 0 .. count - 1 in order, each drawing first its
        length and then its tenant from a fresh Random over `stream`; each tenant is written
        into the table under the cloudlet's id. */
    method CreateCloudlets(count: int, tenants: int, stream: nat -> nat) returns (r: Result<seq<Cloudlet>>)
      modifies this
      ensures count <= 0 ==> r == Success([]) && tenantOf == old(tenantOf)
      ensures count > 0 && tenants <= 0 ==> r == Failure(IllegalBound(tenants)) && tenantOf == old(tenantOf)
      ensures count > 0 && tenants > 0 ==>
        && r == Success(Generated(stream, count))
        && tenantOf == old(tenantOf) + GeneratedTenants(stream, tenants, count)
      ensures r.Success? ==> forall i :: 0 <= i < |r.value| ==>
        && r.value[i].id == i
        && LengthBase <= r.value[i].length < LengthBase + LengthRandom
        && i in tenantOf && 0 <= tenantOf[i] < tenants
      ensures forall id :: id in old(tenantOf) && !(0 <= id < count) ==> id in tenantOf && tenantOf[id] == old(tenantOf)[id]
    {
      var cloudletList: seq<Cloudlet> := [];
      var rand := new Random(stream);
      var i := 0;
      while i < count
        invariant 0 <= i <= if count < 0 then 0 else count
        invariant rand.stream == stream && rand.calls == 2 * i
        invariant cloudletList == Generated(stream, i)
        invariant i > 0 ==> tenants > 0
        invariant i == 0 ==> tenantOf == old(tenantOf)
        invariant tenants > 0 ==> tenantOf == old(tenantOf) + GeneratedTenants(stream, tenants, i)
      {
        var length := rand.NextInt(LengthRandom);
        var cloudlet := Cloudlet(i, LengthBase + length.value);
        var tenantId := rand.NextInt(tenants);
        if tenantId.Failure? {
          return Failure(tenantId.error);
        }
        tenantOf := tenantOf[cloudlet.id := tenantId.value];
        GeneratedTenantsSnoc(stream, tenants, i, old(tenantOf));
        cloudletList := cloudletList + [cloudlet];
        GeneratedSnoc(stream, i);
        i := i + 1;
      }
      r := Success(cloudletList);
    }

    /** The `switch` on the algorithm name: "SJF" sorts by length (stably), "TenantAware"
        interleaves tenants in rounds, and every other name leaves the list as it is. */
    method ApplyPolicy(algorithm: string, cloudlets: seq<Cloudlet>) returns (r: Result<seq<Cloudlet>>)
      ensures algorithm == "SJF" ==>
        && r.Success?
        && SortedByLength(r.value)
        && SameLengthOrder(r.value, cloudlets)
        && multiset(r.value) == multiset(cloudlets)
      ensures algorithm == "TenantAware" ==>
        && (r.Success? <==> AllMapped(cloudlets, tenantOf))
        && (r.Success? ==> r.value == TenantAwareOrder(cloudlets, tenantOf))
        && (r.Failure? ==> exists k :: FirstUnmapped(cloudlets, tenantOf, k) && r.error == MissingTenant(cloudlets[k].id))
      ensures algorithm != "SJF" && algorithm != "TenantAware" ==> r == Success(cloudlets)
    {
      if algorithm == "SJF" {
        var sorted := SortedByLengthCopy(cloudlets);
        r := Success(sorted);
      } else if algorithm == "TenantAware" {
        r := OrderByTenant(cloudlets, tenantOf);
      } else {
        r := Success(cloudlets);
      }
    }

    /** Lines "create cloudlets, then apply the policy" of one run: CloudletCount cloudlets over
        TenantCount tenants. Every policy succeeds on them and returns a reordering of the very
        same cloudlets. */
    method OrderCloudlets(algorithm: string, stream: nat -> nat) returns (created: seq<Cloudlet>, ordered: seq<Cloudlet>)
      modifies this
      ensures created == Generated(stream, CloudletCount)
      ensures tenantOf == old(tenantOf) + GeneratedTenants(stream, TenantCount, CloudletCount)
      ensures multiset(ordered) == multiset(created)
      ensures algorithm == "SJF" ==> SortedByLength(ordered) && SameLengthOrder(ordered, created)
      ensures algorithm == "TenantAware" ==>
        AllMapped(created, tenantOf) && ordered == TenantAwareOrder(created, tenantOf)
      ensures algorithm != "SJF" && algorithm != "TenantAware" ==> ordered == created
    {
      var made := CreateCloudlets(CloudletCount, TenantCount, stream);
      created := made.value;
      GeneratedInRange(stream, CloudletCount, old(tenantOf));
      var r := ApplyPolicy(algorithm, created);
      if algorithm == "TenantAware" {
        TenantAwarePermutation(created, tenantOf);
      }
      ordered := r.value;
    }
  }
}
