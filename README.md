# MultiTenantFaaS job ordering, modelled in Dafny

This project models the part of `MultiTenantFaaS` that decides in which order the
cloudlets (jobs) of a run are handed to the CloudSim broker:

- `createCloudlets(count, tenants)` makes cloudlets `0 .. count - 1`. It draws each cloudlet's
  length as `40000 + nextInt(10000)` and then its tenant as `nextInt(tenants)` from one
  `Random(42)`. It records the tenant in the static `cloudletTenantMap` under the cloudlet's id.
- The scheduling-policy `switch` in `runSimulation` reorders the list:
  - "SJF" sorts it stably by length.
  - "TenantAware" groups it by tenant and emits it in rounds over tenants
    `0 .. TENANT_COUNT - 1`.
  - Every other name, "RoundRobin" included, leaves it unchanged.

Modules:

- `Cloudlets` (`cloudlets.dfy`) holds the constants `TenantCount` (`TENANT_COUNT`),
  `CloudletCount` (`CLOUDLET_COUNT`), `LengthBase` (`CLOUDLET_LENGTH_BASE`) and `LengthRandom`
  (`CLOUDLET_LENGTH_RANDOM`). It also holds the cloudlet value, the tenant table type, and the
  two Java exceptions the code can raise, as a `Result`.
- `Generation` (`generation.dfy`) models the seeded random source as a class. It is a fixed
  stream of raw draws plus a count of the calls made so far. It also gives the functions that
  say what `createCloudlets` produces.
- `ShortestJobFirst` (`sjf.dfy`) models `List.sort` as an in-place stable insertion sort on an
  array. It specifies the result by two properties:
  - sortedness;
  - `SameLengthOrder`: for every length, the cloudlets of that length appear in the same
    order as in the input.

  `StableSortUnique` proves that these two properties fix the result completely. So any
  stable sort, Java's TimSort included, returns the same list as this model.
- `TenantAware` (`tenant_aware.dfy`) models the three loops of the TenantAware branch as
  methods: grouping, the largest group, and the nested emit loops. They are proved against
  the functions `GroupsOf`, `Rounds` and `TenantAwareOrder`. Lemmas then state what that order
  promises.
- `MultiTenantFaaS` (`simulation.dfy`) has a class `Simulation`. Its `tenantOf` field is
  `cloudletTenantMap`. Its methods are `createCloudlets`, the policy `switch`, and the two
  composed as one run does it.

Facts about the code that the model keeps:

- The tenant is looked up by id in a mutable static map, not stored on the cloudlet.
  A cloudlet without an entry makes the TenantAware branch fail with the unboxing
  `NullPointerException`. This is modelled as `MissingTenant`.
- TenantAware visits only tenants `0 .. TENANT_COUNT - 1`. A cloudlet whose tenant lies outside
  that range is dropped, so the output is a permutation only when every tenant is in range.
- An unrecognised policy name is not an error. It is treated exactly like "RoundRobin": the
  list is left as it is.
- Lengths lie in `[40000, 49999]`, not up to 50000, because `nextInt(10000)` is below 10000.

## Model

| member | source | states |
|---|---|---|
| Generation.Random.NextInt | src/simulations/MultiTenantFaaS.java:242 | the call with a non-positive bound fails with IllegalBound and consumes no draw; otherwise it returns the current draw, which is in [0, bound), and advances the call count by one |
| Generation.Generated | src/simulations/MultiTenantFaaS.java:240-252 | the list has `count` cloudlets, cloudlet i has id i, and every length is in [LengthBase, LengthBase + LengthRandom) |
| Generation.GeneratedTenants | src/simulations/MultiTenantFaaS.java:257-258 | the entries written hold exactly the ids 0 .. count - 1, each mapped to a tenant in [0, tenants) |
| Generation.GeneratedInRange | src/simulations/MultiTenantFaaS.java:240-260 | once the table holds the generated entries, every generated cloudlet has a tenant in 0 .. TenantCount - 1, whatever the table held before |
| MultiTenantFaaS.Simulation.CreateCloudlets | src/simulations/MultiTenantFaaS.java:235-264 | count ≤ 0 yields no cloudlets; a non-positive tenant bound with count > 0 fails on the first tenant draw; otherwise the result is the generated list, the table gains exactly the generated entries, every cloudlet has id i, a length in range and a tenant in [0, tenants), and entries for other ids are kept |
| MultiTenantFaaS.Simulation.ApplyPolicy | src/simulations/MultiTenantFaaS.java:107-137 | "SJF" returns a sorted permutation that keeps every length's order; "TenantAware" succeeds exactly when every cloudlet has a table entry, returns TenantAwareOrder, and otherwise fails on the first cloudlet without one; any other name returns the list unchanged |
| MultiTenantFaaS.Simulation.OrderCloudlets | src/simulations/MultiTenantFaaS.java:104-137 | with CLOUDLET_COUNT cloudlets over TENANT_COUNT tenants, every policy succeeds and returns a permutation of the created list; SJF's is sorted and stable, TenantAware's is TenantAwareOrder, and any other name's is the created list |
| ShortestJobFirst.SortByLength | src/simulations/MultiTenantFaaS.java:109 | the array ends up sorted by length, and cloudlets of each length keep their original relative order |
| ShortestJobFirst.InsertAt | src/simulations/MultiTenantFaaS.java:109 | inserting a[i] into the sorted a[..i] sorts a[..i + 1], leaves the rest alone and keeps every length's order |
| ShortestJobFirst.SwapNeighbours | src/simulations/MultiTenantFaaS.java:109 | exchanging two neighbours of different lengths changes only those two places and keeps every length's order |
| ShortestJobFirst.SortedByLengthCopy | src/simulations/MultiTenantFaaS.java:109 | the sorted list is sorted, stable and a permutation of the input |
| ShortestJobFirst.SameLengthOrderIsPermutation | src/simulations/MultiTenantFaaS.java:109 | a list that keeps every length's order of another is a permutation of it, with the same length |
| ShortestJobFirst.StableSortUnique | src/simulations/MultiTenantFaaS.java:109 | two sorted lists that keep every length's order of each other are equal: a stable sort has only one possible result |
| TenantAware.GroupByTenant | src/simulations/MultiTenantFaaS.java:113-117 | grouping succeeds exactly when every cloudlet has a table entry and then builds GroupsOf; otherwise it fails with MissingTenant for the first cloudlet without one |
| TenantAware.GroupsOfByTenant | src/simulations/MultiTenantFaaS.java:113-117 | tenant t's group is exactly that tenant's cloudlets in list order, and t is a key exactly when it has at least one cloudlet |
| TenantAware.LargestGroup | src/simulations/MultiTenantFaaS.java:120-123 | the result bounds every group's size and is the size of some group, or 0 when there are no groups |
| TenantAware.EmitRounds | src/simulations/MultiTenantFaaS.java:125-132 | the nested loops produce rounds 0 .. rounds - 1, where round i holds the i-th cloudlet of tenants 0, 1, ..., TENANT_COUNT - 1 that have one |
| TenantAware.OrderByTenant | src/simulations/MultiTenantFaaS.java:111-134 | the branch fails exactly when a cloudlet has no table entry (on the first such cloudlet), and otherwise returns TenantAwareOrder |
| TenantAware.RoundsPadding | src/simulations/MultiTenantFaaS.java:120-132 | rounds beyond the largest in-range group add nothing, so the largest group size gives the same list as any larger number of rounds |
| TenantAware.TenantAwareKeepsTenantOrder | src/simulations/MultiTenantFaaS.java:113-132 | each in-range tenant's cloudlets come out in the order they went in; cloudlets of any other tenant do not come out |
| TenantAware.TenantAwareKeepsInRange | src/simulations/MultiTenantFaaS.java:113-132 | the output is a permutation of the cloudlets whose tenant is in range: out-of-range ones are dropped and nothing else is lost or duplicated |
| TenantAware.TenantAwarePermutation | src/simulations/MultiTenantFaaS.java:113-132 | when every tenant is in range, the output is a permutation of the input with the same length |
| TenantAware.TenantAwareFairRounds | src/simulations/MultiTenantFaaS.java:125-131 | the first k rounds are a prefix of the output and hold exactly the first k cloudlets of each in-range tenant, so a tenant's k-th cloudlet comes before any tenant's (k+1)-th |
| TenantAware.TenantAwareRoundAscending | src/simulations/MultiTenantFaaS.java:126-131 | every cloudlet in a round has an in-range tenant, and tenant ids strictly ascend within the round |
| TenantAware.TenantAwareSingleTenant | src/simulations/MultiTenantFaaS.java:119-133 | when all cloudlets belong to one in-range tenant, the output is the input unchanged; the empty list gives the empty list |

## Left out

- CloudSim itself is not part of this model: its initialisation, datacenter, hosts, VMs,
  broker, `startSimulation` and the time-shared execution of cloudlets all live in a
  library whose code is not available.
- File output is not modelled, because it is I/O: the output directory, CSV generation and the
  comparison report.
- Floating-point metrics, including wait times and per-tenant averages, are not modelled.
- The choice of the best algorithm over a `HashMap`'s unspecified iteration order is not
  modelled, nor is logging.
- Generation.Draw: the arithmetic of `java.util.Random(42)` is not reproduced. The generator
  is an arbitrary fixed stream of raw draws, and the k-th call `nextInt(bound)` gives that
  draw reduced below `bound`. So the proved facts hold for every stream, but the concrete
  lengths and tenants of a run are not computed.
- Catching and logging of exceptions in `runSimulation` is not modelled. An exception of the
  modelled code becomes a `Failure` result.
- A cloudlet keeps only its id and length. The broker (user) id set by `setUserId`, the
  `brokerId` parameter of `createCloudlets`, the PE count, the file and output sizes and the
  utilisation models are left out, because none of them affects the ordering.
- A `null` algorithm name is not modelled: `switch` on `null` throws, and names here are
  plain strings.
- ShortestJobFirst.SortByLength: Java's `List.sort` is a TimSort, not an insertion sort.
  `StableSortUnique` shows that every stable sort by length produces the same list.
- TenantAware.TenantAwareFairRounds: the bounded-interleaving property is stated as "the
  first k rounds hold exactly the first k cloudlets of each tenant and form a prefix of the
  output". It is not stated as a comparison of output positions.
