/**
  The write queue: a thread that wants to write puts its writer at the back, waits until it is at the
  front, holds a guard, and releases it. The steps of all threads interleave freely. Releasing pops the
  front without looking at it, and a guard may be released more than once.
 */
module WriteQueue {

  datatype Writer = ConfirmationHeight | BlockProcessor | Pruning | VotingFinal | Testing

  datatype Guard = Guard(writer: Writer, owned: bool)

  datatype Step = Enqueue(writer: Writer) | Acquire(writer: Writer, id: nat) | Release(id: nat)

  /** `waiting` are the threads inside `wait`; the last three fields record the run. */
  datatype State = State(
    queue: seq<Writer>, waiting: set<Writer>, guards: map<nat, Guard>,
    enqueued: seq<Writer>, acquired: seq<Writer>, popped: seq<Writer>)
  {
    /** A writer must not be in the queue twice; a wait ends at the front of the queue. */
    predicate Enabled(step: Step) {
      match step
      case Enqueue(w) => w !in queue
      case Acquire(w, id) => w in waiting && queue != [] && queue[0] == w && id !in guards
      case Release(id) => id in guards
    }

    function Next(step: Step): State
      requires Enabled(step)
    {
      match step
      case Enqueue(w) =>
        this.(queue := queue + [w], waiting := waiting + {w}, enqueued := enqueued + [w])
      case Acquire(w, id) =>
        this.(waiting := waiting - {w}, guards := guards[id := Guard(w, true)], acquired := acquired + [w])
      case Release(id) =>
        if !guards[id].owned then this
        else
          this.(guards := guards[id := guards[id].(owned := false)],
                queue := if queue == [] then [] else queue[1..],
                popped := if queue == [] then popped else popped + [queue[0]])
    }

    predicate Holds(id: nat) { id in guards && guards[id].owned }

    ghost predicate Held() { exists id :: Holds(id) }

    /** At most one guard is owned, and its writer is at the front. */
    ghost predicate Exclusive() {
      && (forall id, id' | Holds(id) && Holds(id') :: id == id')
      && (forall id | Holds(id) :: queue != [] && queue[0] == guards[id].writer && queue[0] !in waiting)
    }

    /** Every writer in the queue is there once, and waits or holds the guard. */
    ghost predicate Accounted() {
      && (forall i, j | 0 <= i < j < |queue| :: queue[i] != queue[j])
      && (forall w | w in waiting :: w in queue)
      && (forall i | 0 <= i < |queue| :: queue[i] in waiting || (i == 0 && Held()))
    }

    /** Writers leave the queue, and got their guard, in the order in which they came. */
    ghost predicate InOrder() {
      && enqueued == popped + queue
      && (Held() ==> queue != [])
      && acquired == popped + (if Held() then queue[..1] else [])
    }

    ghost predicate Valid() {
      Exclusive() && Accounted() && InOrder()
    }
  }

  const INITIAL: State := State([], {}, map[], [], [], [])

  lemma InitialValid()
    ensures INITIAL.Valid()
  {
  }

  lemma EnqueueKeeps(s: State, w: Writer)
    requires s.Valid() && s.Enabled(Enqueue(w))
    ensures s.Next(Enqueue(w)).Valid()
  {
    var s' := s.Next(Enqueue(w));
    assert forall id :: s'.Holds(id) == s.Holds(id);
    assert s'.Held() == s.Held();
    assert s'.enqueued == s'.popped + s'.queue;
    assert s.Held() ==> s'.queue[..1] == s.queue[..1];
  }

  lemma AcquireKeeps(s: State, w: Writer, id: nat)
    requires s.Valid() && s.Enabled(Acquire(w, id))
    ensures s.Next(Acquire(w, id)).Valid()
  {
    var s' := s.Next(Acquire(w, id));
    assert !s.Held();
    assert forall other :: s'.Holds(other) <==> other == id;
    assert s'.Holds(id);
    assert s'.queue[..1] == [w];
  }

  lemma ReleaseFrees(s: State, id: nat)
    requires s.Exclusive() && s.Holds(id)
    ensures forall other :: !s.Next(Release(id)).Holds(other)
  {
    forall other
      ensures !s.Next(Release(id)).Holds(other)
    {
      assert s.Next(Release(id)).Holds(other) ==> s.Holds(other) && other != id;
    }
  }

  lemma PopKeepsAccounted(s: State, id: nat)
    requires s.Valid() && s.Holds(id)
    ensures s.Next(Release(id)).Accounted()
  {
  }

  lemma PopKeepsOrder(s: State, id: nat)
    requires s.Exclusive() && s.InOrder() && s.Holds(id)
    ensures s.Next(Release(id)).InOrder()
  {
    var s' := s.Next(Release(id));
    ReleaseFrees(s, id);
    assert s.Held() && s.queue[..1] == [s.queue[0]] && s.queue == [s.queue[0]] + s'.queue;
    assert s'.enqueued == s'.popped + s'.queue;
  }

  lemma ReleaseKeeps(s: State, id: nat)
    requires s.Valid() && s.Enabled(Release(id))
    ensures s.Next(Release(id)).Valid()
  {
    if s.Holds(id) {
      ReleaseFrees(s, id);
      PopKeepsAccounted(s, id);
      PopKeepsOrder(s, id);
    }
  }

  ghost predicate IsRun(s: State, steps: seq<Step>)
    decreases |steps|
  {
    steps != [] ==> s.Enabled(steps[0]) && IsRun(s.Next(steps[0]), steps[1..])
  }

  ghost function After(s: State, steps: seq<Step>): State
    requires IsRun(s, steps)
    decreases |steps|
  {
    if steps == [] then s else After(s.Next(steps[0]), steps[1..])
  }

  lemma {:induction false} RunKeeps(s: State, steps: seq<Step>)
    requires s.Valid() && IsRun(s, steps)
    ensures After(s, steps).Valid()
    decreases |steps|
  {
    if steps != [] {
      match steps[0] {
        case Enqueue(w) => EnqueueKeeps(s, w);
        case Acquire(w, id) => AcquireKeeps(s, w, id);
        case Release(id) => ReleaseKeeps(s, id);
      }
      RunKeeps(s.Next(steps[0]), steps[1..]);
    }
  }

  /**
    However the threads interleave: never two owned guards, guards are given out in the order of the
    queue, and releasing takes out the writer of the guard that is released.
   */
  lemma WriteQueueIsFair(steps: seq<Step>)
    requires IsRun(INITIAL, steps)
    ensures var s := After(INITIAL, steps);
            && (forall id, id' | s.Holds(id) && s.Holds(id') :: id == id')
            && s.acquired <= s.enqueued
            && (forall id | s.Holds(id) ::
                  s.queue != [] && s.queue[0] == s.guards[id].writer && s.Next(Release(id)).queue == s.queue[1..])
  {
    InitialValid();
    RunKeeps(INITIAL, steps);
    var s := After(INITIAL, steps);
    assert s.Held() ==> s.queue == s.queue[..1] + s.queue[1..];
    assert s.Held() ==> s.enqueued == (s.popped + s.queue[..1]) + s.queue[1..];
  }

  /** The queue never gets stuck: its front is held by a guard or may take one. */
  lemma SomeoneCanProceed(steps: seq<Step>, id: nat)
    requires IsRun(INITIAL, steps) && After(INITIAL, steps).queue != [] && id !in After(INITIAL, steps).guards
    ensures var s := After(INITIAL, steps); s.Held() || s.Enabled(Acquire(s.queue[0], id))
    ensures forall w :: After(INITIAL, steps).Enabled(Enqueue(w)) <==> w !in After(INITIAL, steps).queue
    ensures forall g | After(INITIAL, steps).Holds(g) :: After(INITIAL, steps).Enabled(Release(g))
  {
    InitialValid();
    RunKeeps(INITIAL, steps);
  }
}
