/**
 * The renderer's fence scheduler (shift/src/rendering_layer/fence_scheduler.rs).
 *
 * Each scheduled wait owns a shared callback cell (an `Arc<Mutex<Option<callback>>>` in the
 * source), modelled as an index into `cells`; running a callback takes it out of its cell.
 * The only callback the renderer schedules sends a `FenceEvent`, so a callback is the event
 * it sends.  The wait tasks run concurrently in the source: `WaitTaskFinishes` is the step
 * in which one of them finishes, with the outcome of each fence wait as a parameter, and
 * `completed` is the channel the finished tasks post to.
 */
module FenceSchedule {
  import opened Ids
  import opened Wrappers
  import opened Seqs
  import opened Comms
  import opened RenderState

  datatype FenceTaskHandle = FenceTaskHandle(raw: U64)

  datatype FenceWaitMode = Any | All

  /** A spawned wait task: the callback cell it posts, what it waits on, and whether it has ended. */
  datatype WaitTask = WaitTask(cell: nat, fences: seq<Fence>, mode: FenceWaitMode, finished: bool)

  datatype CompletedTask = CompletedTask(handle: FenceTaskHandle, cell: nat)

  /**
   * `wait_many_fences`, given the outcome of each `wait_one_fence` in the order the waits
   * ended: no fence means success; `Any` takes the first wait to end; `All` needs all.
   */
  function WaitManyFences(outcomes: seq<bool>, mode: FenceWaitMode): (ok: bool)
    ensures outcomes == [] ==> ok
    ensures mode.All? ==> (ok <==> forall i :: 0 <= i < |outcomes| ==> outcomes[i])
    ensures mode.Any? && outcomes != [] ==> (ok <==> outcomes[0])
  {
    if outcomes == [] then true
    else match mode
      case Any => outcomes[0]
      case All => forall i :: 0 <= i < |outcomes| ==> outcomes[i]
  }

  /** Waiting for all fences succeeds only where waiting for any of them would. */
  lemma AllStricterThanAny(outcomes: seq<bool>)
    ensures WaitManyFences(outcomes, All) ==> WaitManyFences(outcomes, Any)
  {
    if outcomes != [] && WaitManyFences(outcomes, All) {
      assert outcomes[0];
    }
  }

  class FenceScheduler {
    var nextId: nat
    var tasks: map<FenceTaskHandle, WaitTask>
    var callbacks: map<FenceTaskHandle, nat>
    var cells: seq<Option<FenceEvent>>
    var completed: seq<CompletedTask>
    /** What each cell held when it was created. */
    ghost var armed: seq<FenceEvent>
    /** The callbacks run so far, in order, and the cells they came from. */
    ghost var fired: seq<FenceEvent>
    ghost var firedCells: seq<nat>

    /**
     * Every handle has a task and a callback sharing one cell, and lies below the counter
     * until it saturates; every cell a task or a completion names exists, a cell holds
     * only what it was armed with, and a cell whose callback has run is empty, so that no
     * callback runs twice.
     */
    ghost predicate Valid()
      reads this
    {
      && 1 <= nextId <= U64_MAX
      && tasks.Keys == callbacks.Keys
      && (forall h :: h in tasks ==> h.raw < nextId || nextId == U64_MAX)
      && (forall h :: h in tasks ==> tasks[h].cell == callbacks[h] < |cells|)
      && (forall i :: 0 <= i < |completed| ==> completed[i].cell < |cells|)
      && |armed| == |cells|
      && (forall c :: 0 <= c < |cells| && cells[c].Some? ==> cells[c].value == armed[c])
      && |fired| == |firedCells|
      && NoDuplicates(firedCells)
      && (forall i :: 0 <= i < |firedCells| ==>
            firedCells[i] < |cells| && cells[firedCells[i]].None? && fired[i] == armed[firedCells[i]])
    }

    /** `FenceScheduler::new`: handles start at 1 and nothing is scheduled. */
    constructor ()
      ensures Valid()
      ensures nextId == 1 && tasks == map[] && callbacks == map[] && completed == []
      ensures cells == [] && fired == []
    {
      nextId := 1;
      tasks := map[];
      callbacks := map[];
      cells := [];
      completed := [];
      armed := [];
      fired := [];
      firedCells := [];
    }

    /**
     * `schedule`: the next handle (the counter saturates at the largest `u64`) gets a
     * fresh cell armed with `callback` and a wait task on `fences`.
     */
    method Schedule(fences: seq<Fence>, mode: FenceWaitMode, callback: FenceEvent) returns (h: FenceTaskHandle)
      requires Valid()
      modifies this
      ensures Valid()
      ensures h.raw == old(nextId) && nextId == SaturatingInc(old(nextId))
      ensures old(nextId) < U64_MAX ==> h !in old(tasks) && h !in old(callbacks)
      ensures cells == old(cells) + [Some(callback)]
      ensures tasks == old(tasks)[h := WaitTask(|old(cells)|, fences, mode, false)]
      ensures callbacks == old(callbacks)[h := |old(cells)|]
      ensures completed == old(completed) && fired == old(fired)
    {
      h := FenceTaskHandle(nextId);
      nextId := SaturatingInc(nextId);
      var cell := |cells|;
      cells := cells + [Some(callback)];
      armed := armed + [callback];
      tasks := tasks[h := WaitTask(cell, fences, mode, false)];
      callbacks := callbacks[h := cell];
    }

    /**
     * `reschedule`: for a handle that still has its callback, the old wait is aborted and a
     * new one on `fences` posts the same cell; for any other handle nothing changes.
     */
    method Reschedule(h: FenceTaskHandle, fences: seq<Fence>, mode: FenceWaitMode) returns (ok: bool)
      requires Valid()
      modifies this
      ensures Valid()
      ensures ok <==> h in old(callbacks)
      ensures ok ==> tasks == old(tasks)[h := WaitTask(old(callbacks)[h], fences, mode, false)]
      ensures !ok ==> tasks == old(tasks)
      ensures callbacks == old(callbacks) && cells == old(cells) && nextId == old(nextId)
      ensures completed == old(completed) && fired == old(fired)
    {
      if h !in callbacks {
        return false;
      }
      tasks := tasks[h := WaitTask(callbacks[h], fences, mode, false)];
      ok := true;
    }

    /**
     * `cancel`: the task and the callback handle are dropped; the answer says whether
     * the handle was known.  The cell itself is not emptied, so a completion already
     * posted for it still runs the callback.
     */
    method Cancel(h: FenceTaskHandle) returns (known: bool)
      requires Valid()
      modifies this
      ensures Valid()
      ensures known <==> h in old(callbacks)
      ensures tasks == old(tasks) - {h} && callbacks == old(callbacks) - {h}
      ensures cells == old(cells) && completed == old(completed) && nextId == old(nextId)
      ensures fired == old(fired)
    {
      known := h in callbacks;
      tasks := tasks - {h};
      callbacks := callbacks - {h};
    }

    /**
     * The body of `spawn_wait_task`: the live task `h` ends with the given fence
     * outcomes and, when `wait_many_fences` succeeds, posts its cell to the channel.
     */
    method WaitTaskFinishes(h: FenceTaskHandle, outcomes: seq<bool>)
      requires Valid()
      requires h in tasks && !tasks[h].finished
      modifies this
      ensures Valid()
      ensures tasks == old(tasks)[h := old(tasks)[h].(finished := true)]
      ensures WaitManyFences(outcomes, old(tasks)[h].mode) ==>
        completed == old(completed) + [CompletedTask(h, old(tasks)[h].cell)]
      ensures !WaitManyFences(outcomes, old(tasks)[h].mode) ==> completed == old(completed)
      ensures callbacks == old(callbacks) && cells == old(cells) && nextId == old(nextId)
      ensures fired == old(fired)
    {
      var t := tasks[h];
      if WaitManyFences(outcomes, t.mode) {
        completed := completed + [CompletedTask(h, t.cell)];
      }
      tasks := tasks[h := t.(finished := true)];
    }

    /**
     * `recv_and_run`, once a completion is waiting: the handle is forgotten and the
     * cell's callback, if it is still there, is taken out and run; `ran` is the event it
     * sends.
     */
    method RecvAndRun() returns (ran: Option<FenceEvent>)
      requires Valid()
      requires completed != []
      modifies this
      ensures Valid()
      ensures completed == old(completed)[1..]
      ensures tasks == old(tasks) - {old(completed)[0].handle}
      ensures callbacks == old(callbacks) - {old(completed)[0].handle}
      ensures armed == old(armed) && |cells| == |old(cells)|
      ensures ran.Some? <==> old(cells)[old(completed)[0].cell].Some?
      ensures ran.Some? ==>
        && ran.value == armed[old(completed)[0].cell]
        && cells == old(cells)[old(completed)[0].cell := None]
        && fired == old(fired) + [ran.value]
      ensures ran.None? ==> cells == old(cells) && fired == old(fired)
      ensures nextId == old(nextId)
    {
      var c := completed[0];
      completed := completed[1..];
      tasks := tasks - {c.handle};
      callbacks := callbacks - {c.handle};
      ran := cells[c.cell];
      if ran.Some? {
        forall i | 0 <= i < |firedCells|
          ensures firedCells[i] != c.cell
        {
        }
        AppendKeepsNoDuplicates(firedCells, c.cell);
        cells := cells[c.cell := None];
        fired := fired + [ran.value];
        firedCells := firedCells + [c.cell];
      }
    }
  }
}
