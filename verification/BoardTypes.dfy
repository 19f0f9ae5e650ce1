/** Task descriptors of the board router (`scripts/python/board_router.py`). */
module BoardTypes {
  datatype DepEdge = DepEdge(taskId: string, generation: int, artifactSha256: string)

  datatype Mode = Count | Read | Write | Other(text: string)

  function ModeName(m: Mode): string
  {
    match m
    case Count => "count"
    case Read => "read"
    case Write => "write"
    case Other(text) => text
  }

  datatype ResourceClaim = ResourceClaim(resourceClass: string, target: string, mode: Mode, units: int)

  type ResourceKey = (string, string)

  function KeyOf(c: ResourceClaim): ResourceKey
  {
    (c.resourceClass, c.target)
  }

  datatype BoardTask = BoardTask(
    taskId: string,
    writePaths: seq<string>,
    readPaths: seq<string>,
    dependsOn: seq<DepEdge>,
    resources: seq<ResourceClaim>,
    worktreeRoot: string,
    metadataComplete: bool,
    priority: int)

  /** A capacity is declared for a whole class or for one target of it. */
  datatype CapacityKey = ClassKey(resourceClass: string) | TargetKey(resourceClass: string, target: string)

  type Capacities = map<CapacityKey, int>

  /** The most specific declaration wins; undeclared resources are exclusive. */
  function CapacityOf(capacities: Capacities, k: ResourceKey): int
  {
    if TargetKey(k.0, k.1) in capacities then capacities[TargetKey(k.0, k.1)]
    else if ClassKey(k.0) in capacities then capacities[ClassKey(k.0)]
    else 1
  }
}
