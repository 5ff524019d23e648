/** The container runtime, as far as the executor can tell: labelled containers with a state. */
module Docker {
  import opened ResilienceSpec
  import opened StateStore
  import opened Wrappers

  /** Container identifiers are never used twice; the executor's empty identifier is 0. */
  type ContainerID = nat

  const RESERVED: ContainerID := 0

  datatype RunState = NotStarted | Live | Exited | Dead

  /** Labels that are missing or empty are None. */
  datatype Container = Container(
    executor: bool, project: Option<ProjectName>, job: Option<JobName>, startedAt: Option<Time>,
    state: RunState, exitCode: int)
  {
    predicate Stopped() { state.Exited? || state.Dead? }
  }

  type Containers = map<ContainerID, Container>

  class Daemon {
    var containers: Containers
    var nextId: ContainerID

    ghost predicate Valid()
      reads this
    {
      nextId > RESERVED && forall id :: id in containers ==> RESERVED < id < nextId
    }

    constructor ()
      ensures Valid() && containers == map[]
    {
      containers, nextId := map[], 1;
    }

    method Create(c: Container) returns (id: ContainerID)
      requires Valid()
      modifies this
      ensures Valid() && id == old(nextId) && nextId == id + 1
      ensures containers == old(containers)[id := c.(state := NotStarted)]
    {
      id := nextId;
      containers, nextId := containers[id := c.(state := NotStarted)], nextId + 1;
    }

    method Start(id: ContainerID)
      requires Valid() && id in containers
      modifies `containers
      ensures Valid() && containers == old(containers)[id := old(containers)[id].(state := Live)]
    {
      containers := containers[id := containers[id].(state := Live)];
    }

    method Remove(id: ContainerID)
      requires Valid()
      modifies `containers
      ensures Valid() && containers == old(containers) - {id}
    {
      containers := containers - {id};
    }

    /** A container ends by itself, or because it was killed. */
    method Stop(id: ContainerID, state: RunState, exitCode: int)
      requires Valid() && (state.Exited? || state.Dead?)
      modifies `containers
      ensures Valid()
      ensures containers == if id in old(containers)
                      then old(containers)[id := old(containers)[id].(state := state, exitCode := exitCode)]
                            else old(containers)
    {
      if id in containers {
        containers := containers[id := containers[id].(state := state, exitCode := exitCode)];
      }
    }

    /** The executor containers in any state, in whatever order the daemon lists them. */
    method ListExecutors() returns (ids: seq<ContainerID>)
      ensures forall id :: id in ids <==> id in containers && containers[id].executor
      ensures forall i, j :: 0 <= i < j < |ids| ==> ids[i] != ids[j]
    {
      ids := [];
      var todo := containers.Keys;
      while todo != {}
        invariant todo <= containers.Keys
        invariant forall id :: id in ids <==> id in containers.Keys - todo && containers[id].executor
        invariant forall i, j :: 0 <= i < j < |ids| ==> ids[i] != ids[j]
        decreases todo
      {
        var id :| id in todo;
        assert id !in ids;
        if containers[id].executor {
          ids := ids + [id];
        }
        todo := todo - {id};
      }
    }
  }
}
