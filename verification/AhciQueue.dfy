/**
 Native command queuing of an AHCI port (src/ahci.js): the tags in flight, the disk I/O they wait
 for, and the generation number by which late disk I/O is told from current.
 */
module AhciQueue {

  /** One accepted queued command; epoch is the generation it was accepted in. */
  datatype Job = Job(id: nat, tag: nat, epoch: nat, write: bool)

  /** What the port has put into guest memory: the data of a read, a completing or failing set device bits FIS. */
  datatype Record = Data(id: nat) | Completed(id: nat, tag: nat) | Failed

  /**
   ncq_active and ncq_epoch, and the disk I/O pending for queued commands, which completes in any
   order.  job maps each active tag to the job that holds it; ids count the accepted jobs, all of which
   are in `accepted`.
   */
  datatype Queue = Queue(
    active: set<nat>, epoch: nat, pending: set<Job>, job: map<nat, Job>, nextId: nat, accepted: seq<Job>, log: seq<Record>)

  const EMPTY := Queue({}, 0, {}, map[], 0, [], [])

  /** Every active tag has exactly one pending job of the current generation, and no other tag has one. */
  ghost predicate TagsHeld(q: Queue) {
    && (forall t :: t in q.active ==> t in q.job && q.job[t] in q.pending && q.job[t].tag == t && q.job[t].epoch == q.epoch)
    && (forall j :: j in q.pending && j.epoch == q.epoch ==> j.tag in q.active && q.job[j.tag] == j)
  }

  ghost predicate IdsFresh(q: Queue) {
    forall j :: j in q.pending ==> j.id < q.nextId && j.epoch <= q.epoch && !CompletedIn(q.log, j.id)
  }

  predicate CompletedIn(log: seq<Record>, id: nat) {
    exists i :: 0 <= i < |log| && log[i].Completed? && log[i].id == id
  }

  /** No job is completed twice, and only accepted ones are. */
  ghost predicate OnceEach(q: Queue) {
    && (forall i, k :: 0 <= i < k < |q.log| && q.log[i].Completed? && q.log[k].Completed? ==> q.log[i].id != q.log[k].id)
    && (forall i :: 0 <= i < |q.log| && q.log[i].Completed? ==> q.log[i].id < q.nextId)
  }

  ghost predicate SameIds(q: Queue) {
    forall j, k :: j in q.pending && k in q.pending && j.id == k.id ==> j == k
  }

  ghost predicate Valid(q: Queue) {
    TagsHeld(q) && IdsFresh(q) && OnceEach(q) && SameIds(q)
  }

  lemma {:induction false} EmptyValid()
    ensures Valid(EMPTY)
  {
  }

  /** The device accepts a command with a free tag. */
  function Accept(q: Queue, tag: nat, write: bool): (Queue, Job) {
    var j := Job(q.nextId, tag, q.epoch, write);
    (q.(active := q.active + {tag}, pending := q.pending + {j}, job := q.job[tag := j],
        nextId := q.nextId + 1, accepted := q.accepted + [j]), j)
  }

  /** The disk I/O of a job is over: its callback runs now. */
  function Take(q: Queue, j: Job): Queue {
    q.(pending := q.pending - {j})
  }

  /** queued_done does something for this job. */
  predicate Live(q: Queue, j: Job) {
    j.epoch == q.epoch && j.tag in q.active
  }

  /** The job completes: its tag is free and its completion is posted. */
  function Complete(q: Queue, j: Job): Queue {
    q.(active := q.active - {j.tag}, log := q.log + [Completed(j.id, j.tag)])
  }

  /** The data of a read goes to guest memory. */
  function Deliver(q: Queue, j: Job): Queue {
    q.(log := q.log + [Data(j.id)])
  }

  /** ncq_failed: no tag is left, a new generation begins. */
  function Fail(q: Queue): Queue {
    q.(active := {}, epoch := q.epoch + 1, log := q.log + [Failed])
  }

  /** abort_command: a stop, a reset, a removal or a bus error. */
  function Abort(q: Queue): Queue {
    q.(active := {}, epoch := q.epoch + 1)
  }

  /** After a failure or an abort no pending job is of the current generation. */
  lemma {:induction false} AbortValid(q: Queue)
    requires Valid(q)
    ensures Valid(Abort(q)) && Valid(Fail(q))
    ensures forall j :: j in q.pending ==> j.epoch < Abort(q).epoch == Fail(q).epoch
  {
    AppendOther(q.log, Failed);
  }

  lemma {:induction false} AppendOther(log: seq<Record>, r: Record)
    ensures forall id: nat :: CompletedIn(log + [r], id) <==> CompletedIn(log, id) || (r.Completed? && r.id == id)
  {
    forall id: nat
      ensures CompletedIn(log + [r], id) <==> CompletedIn(log, id) || (r.Completed? && r.id == id)
    {
      if CompletedIn(log, id) {
        var i :| 0 <= i < |log| && log[i].Completed? && log[i].id == id;
        assert (log + [r])[i] == log[i];
      }
      if r.Completed? && r.id == id {
        assert (log + [r])[|log|] == r;
      }
    }
  }

  lemma {:induction false} AcceptValid(q: Queue, tag: nat, write: bool)
    requires Valid(q) && tag !in q.active
    ensures Valid(Accept(q, tag, write).0)
  {
    forall i | 0 <= i < |q.log| && q.log[i].Completed?
      ensures q.log[i].id != q.nextId
    {
    }
  }

  /** Between its callback and its completion, a live job is the only one missing from the pending ones. */
  ghost predicate ValidBut(q: Queue, j: Job) {
    && j !in q.pending && Live(q, j) && q.job.Keys >= q.active && q.job[j.tag] == j
    && j.id < q.nextId && !CompletedIn(q.log, j.id) && (forall k :: k in q.pending ==> k.id != j.id)
    && (forall t :: t in q.active && t != j.tag ==>
          t in q.job && q.job[t] in q.pending && q.job[t].tag == t && q.job[t].epoch == q.epoch)
    && (forall k :: k in q.pending && k.epoch == q.epoch ==> k.tag in q.active && k.tag != j.tag && q.job[k.tag] == k)
    && IdsFresh(q) && OnceEach(q) && SameIds(q)
  }

  lemma {:induction false} TakeValid(q: Queue, j: Job)
    requires Valid(q) && j in q.pending
    ensures j.epoch == q.epoch ==> ValidBut(Take(q, j), j)
    ensures j.epoch != q.epoch ==> Valid(Take(q, j))
  {
  }

  lemma {:induction false} CompleteValid(q: Queue, j: Job)
    requires ValidBut(q, j)
    ensures Valid(Complete(q, j))
  {
    AppendOther(q.log, Completed(j.id, j.tag));
    var log := q.log + [Completed(j.id, j.tag)];
    forall i, k | 0 <= i < k < |log| && log[i].Completed? && log[k].Completed?
      ensures log[i].id != log[k].id
    {
      assert k == |q.log| ==> log[i] == q.log[i];
    }
  }

  lemma {:induction false} DeliverValid(q: Queue, j: Job)
    requires ValidBut(q, j)
    ensures ValidBut(Deliver(q, j), j)
  {
    AppendOther(q.log, Data(j.id));
  }

  lemma {:induction false} FailValid(q: Queue, j: Job)
    requires ValidBut(q, j)
    ensures Valid(Fail(q))
  {
    AppendOther(q.log, Failed);
  }

  // ---------------------------------------------------------------------------
  // Whole runs

  /**
   A queued command arrives, with everything about it in order or not; the disk I/O of a pending job is over and its memory
   is there or not; the commands in flight are dropped.
   */
  datatype Action = Arrives(tag: nat, write: bool, good: bool) | Finishes(job: Job, memory: bool) | Stops

  function Step(q: Queue, a: Action): Queue {
    match a
    case Arrives(tag, write, good) =>
      if good && tag !in q.active then Accept(q, tag, write).0 else Fail(q)
    case Finishes(j, memory) =>
      if j !in q.pending then q
      else if j.epoch != q.epoch then Take(q, j)
      else if j.write then Complete(Take(q, j), j)
      else if memory then Complete(Deliver(Take(q, j), j), j)
      else Fail(Take(q, j))
    case Stops => Abort(q)
  }

  function Run(q: Queue, actions: seq<Action>): Queue {
    if actions == [] then q else Step(Run(q, actions[..|actions| - 1]), actions[|actions| - 1])
  }

  lemma {:induction false} RunAppend(q: Queue, actions: seq<Action>, a: Action)
    ensures Run(q, actions + [a]) == Step(Run(q, actions), a)
  {
    assert (actions + [a])[..|actions|] == actions;
  }

  /** A longer run goes on from a shorter one. */
  lemma {:induction false} RunFrom(q: Queue, n: nat, actions: seq<Action>)
    requires n <= |actions|
    ensures Run(q, actions) == Run(Run(q, actions[..n]), actions[n..])
  {
    if n < |actions| {
      var front, rest := actions[..|actions| - 1], actions[n..];
      RunFrom(q, n, front);
      assert front[..n] == actions[..n] && rest[..|rest| - 1] == front[n..];
    } else {
      assert actions[..n] == actions;
    }
  }

  lemma {:induction false} StepValid(q: Queue, a: Action)
    requires Valid(q)
    ensures Valid(Step(q, a))
  {
    match a
    case Arrives(tag, write, good) =>
      if good && tag !in q.active {
        AcceptValid(q, tag, write);
      } else {
        AbortValid(q);
      }
    case Finishes(j, memory) =>
      if j in q.pending {
        TakeValid(q, j);
        if j.epoch == q.epoch {
          if j.write {
            CompleteValid(Take(q, j), j);
          } else if memory {
            DeliverValid(Take(q, j), j);
            CompleteValid(Deliver(Take(q, j), j), j);
          } else {
            FailValid(Take(q, j), j);
          }
        }
      }
    case Stops => AbortValid(q);
  }

  /** In every run: each active tag has its one pending job, and no job completes twice. */
  lemma {:induction false} RunValid(actions: seq<Action>)
    ensures Valid(Run(EMPTY, actions))
  {
    if actions == [] {
      EmptyValid();
    } else {
      RunValid(actions[..|actions| - 1]);
      StepValid(Run(EMPTY, actions[..|actions| - 1]), actions[|actions| - 1]);
    }
  }

  /** A job that was accepted and is not pending in the current generation. */
  ghost predicate Dead(q: Queue, id: nat) {
    id < q.nextId && forall j :: j in q.pending && j.id == id ==> j.epoch < q.epoch
  }

  /** Nothing in the log from n on is about this job. */
  predicate Silent(log: seq<Record>, n: nat, id: nat) {
    forall i :: n <= i < |log| && !log[i].Failed? ==> log[i].id != id
  }

  lemma {:induction false} StopKills(q: Queue, id: nat)
    requires Valid(q) && id < q.nextId
    ensures Dead(Abort(q), id) && Dead(Fail(q), id)
  {
  }

  lemma {:induction false} DeadStep(q: Queue, a: Action, id: nat, n: nat)
    requires Valid(q) && Dead(q, id) && n <= |q.log| && Silent(q.log, n, id)
    ensures Dead(Step(q, a), id) && q.log <= Step(q, a).log && Silent(Step(q, a).log, n, id)
  {
  }

  /**
   Once a generation is over, a job of it puts nothing into guest memory any more, neither data nor
   a completion, whatever happens next and in whatever order the disk I/O ends.
   */
  lemma {:induction false} DeadForever(q: Queue, actions: seq<Action>, id: nat)
    requires Valid(q) && Dead(q, id)
    ensures Valid(Run(q, actions)) && Dead(Run(q, actions), id)
    ensures q.log <= Run(q, actions).log && Silent(Run(q, actions).log, |q.log|, id)
  {
    if actions != [] {
      var n := |actions| - 1;
      DeadForever(q, actions[..n], id);
      StepValid(Run(q, actions[..n]), actions[n]);
      DeadStep(Run(q, actions[..n]), actions[n], id, |q.log|);
    }
  }

  lemma {:induction false} LogGrows(q: Queue, actions: seq<Action>)
    ensures q.log <= Run(q, actions).log
  {
    if actions != [] {
      LogGrows(q, actions[..|actions| - 1]);
    }
  }

  /** Jobs accepted later have later ids. */
  lemma {:induction false} OldJobs(q: Queue, actions: seq<Action>)
    ensures q.nextId <= Run(q, actions).nextId && q.epoch <= Run(q, actions).epoch
    ensures forall j :: j in Run(q, actions).pending && j.id < q.nextId ==> j in q.pending
  {
    if actions != [] {
      OldJobs(q, actions[..|actions| - 1]);
    }
  }

  /** Without active tags every job that was accepted is dead. */
  lemma {:induction false} IdleKills(q: Queue, id: nat)
    requires Valid(q) && q.active == {} && id < q.nextId
    ensures Dead(q, id)
  {
  }

  /** Once the generation has changed, for whatever reason, every job accepted before is dead. */
  lemma {:induction false} NewGenerationKills(q: Queue, actions: seq<Action>, id: nat)
    requires Valid(q) && id < q.nextId && q.epoch < Run(q, actions).epoch
    ensures Dead(Run(q, actions), id)
  {
    OldJobs(q, actions);
  }

  // ---------------------------------------------------------------------------
  // What the guest sees of a job

  predicate DataBefore(log: seq<Record>, n: nat, id: nat) {
    exists i :: 0 <= i < n && i < |log| && log[i] == Data(id)
  }

  /** Every accepted command is known by its number. */
  ghost predicate Numbered(q: Queue) {
    && |q.accepted| == q.nextId && (forall k :: 0 <= k < |q.accepted| ==> q.accepted[k].id == k)
    && (forall j :: j in q.pending ==> j.id < |q.accepted| && q.accepted[j.id] == j && !DataBefore(q.log, |q.log|, j.id))
  }

  /** A completion is that of an accepted command with its tag, and a read has its data before it. */
  predicate DataFirst(log: seq<Record>, accepted: seq<Job>) {
    forall i :: 0 <= i < |log| && log[i].Completed? ==> InOrder(log, accepted, i)
  }

  predicate InOrder(log: seq<Record>, accepted: seq<Job>, i: nat)
    requires i < |log| && log[i].Completed?
  {
    && log[i].id < |accepted| && accepted[log[i].id].tag == log[i].tag
    && (accepted[log[i].id].write || DataBefore(log, i, log[i].id))
  }

  lemma {:induction false} DataFirstMore(log: seq<Record>, accepted: seq<Job>, r: Record)
    requires DataFirst(log, accepted)
    requires r.Completed? ==>
               r.id < |accepted| && accepted[r.id].tag == r.tag && (accepted[r.id].write || DataBefore(log, |log|, r.id))
    ensures DataFirst(log + [r], accepted)
  {
    var more := log + [r];
    forall i | 0 <= i < |more| && more[i].Completed?
      ensures InOrder(more, accepted, i)
    {
      DataGrows(log, r, more[i].id);
      assert i < |log| ==> InOrder(log, accepted, i);
    }
  }

  /** Only reads have data, and once. */
  ghost predicate DataOnce(q: Queue) {
    && (forall i :: 0 <= i < |q.log| && q.log[i].Data? ==> q.log[i].id < |q.accepted| && !q.accepted[q.log[i].id].write)
    && (forall i, k :: 0 <= i < k < |q.log| && q.log[i].Data? && q.log[k].Data? ==> q.log[i].id != q.log[k].id)
  }

  ghost predicate Served(q: Queue) {
    Numbered(q) && DataFirst(q.log, q.accepted) && DataOnce(q)
  }

  /**
   What each action does. A command that arrives is accepted if all about it is in order and its tag is
   free, and else fails. A job that finishes in its own generation has its data, if it is a read, and
   then its completion posted, and its tag is free; a read whose memory is not there fails. Another
   job changes nothing but that it does not wait any more.
   */
  lemma {:induction false} StepMeans(q: Queue, a: Action)
    requires Valid(q)
    ensures var r := Step(q, a);
            match a
            case Arrives(tag, write, good) =>
              if good && tag !in q.active then
                var j := Job(q.nextId, tag, q.epoch, write);
                && r.accepted == q.accepted + [j] && r.pending == q.pending + {j} && r.active == q.active + {tag}
                && r.nextId == q.nextId + 1 && r.log == q.log && r.epoch == q.epoch
              else Drops(q, r, [Failed]) && r.pending == q.pending
            case Stops => Drops(q, r, []) && r.pending == q.pending
            case Finishes(j, memory) =>
              if j !in q.pending then r == q
              else if j.epoch != q.epoch then r == q.(pending := q.pending - {j})
              else if j.write || memory then
                && r.log == q.log + (if j.write then [] else [Data(j.id)]) + [Completed(j.id, j.tag)]
                && r.active == q.active - {j.tag} && j.tag in q.active && r.pending == q.pending - {j}
                && r.epoch == q.epoch && r.accepted == q.accepted && r.nextId == q.nextId
              else Drops(q, r, [Failed]) && r.pending == q.pending - {j}
  {
  }

  /** All tags are dropped and the generation changes. */
  predicate Drops(q: Queue, r: Queue, more: seq<Record>) {
    r.active == {} && r.epoch == q.epoch + 1 && r.log == q.log + more && r.accepted == q.accepted && r.nextId == q.nextId
  }

  /** Records that are about no data of any pending job. */
  lemma {:induction false} DataGrows(log: seq<Record>, r: Record, id: nat)
    ensures DataBefore(log + [r], |log| + 1, id) <==> DataBefore(log, |log|, id) || r == Data(id)
    ensures forall i :: 0 <= i <= |log| ==> (DataBefore(log + [r], i, id) <==> DataBefore(log, i, id))
  {
    forall i | 0 <= i <= |log|
      ensures DataBefore(log + [r], i, id) <==> DataBefore(log, i, id)
    {
      if DataBefore(log, i, id) {
        var k :| 0 <= k < i && k < |log| && log[k] == Data(id);
        assert (log + [r])[k] == Data(id);
      }
    }
    if DataBefore(log, |log|, id) {
      var k :| 0 <= k < |log| && log[k] == Data(id);
      assert (log + [r])[k] == Data(id);
    }
    if r == Data(id) {
      assert (log + [r])[|log|] == Data(id);
    }
  }

  /** A record other than data or a completion. */
  lemma {:induction false} FailServed(q: Queue)
    requires Served(q)
    ensures Served(q.(log := q.log + [Failed]))
  {
    DataFirstMore(q.log, q.accepted, Failed);
    forall id: nat
      ensures DataBefore(q.log + [Failed], |q.log| + 1, id) <==> DataBefore(q.log, |q.log|, id)
      ensures forall i :: 0 <= i <= |q.log| ==> (DataBefore(q.log + [Failed], i, id) <==> DataBefore(q.log, i, id))
    {
      DataGrows(q.log, Failed, id);
    }
  }

  lemma {:induction false} DeliverServed(q: Queue, j: Job)
    requires Served(q) && j !in q.pending && j.id < |q.accepted| && q.accepted[j.id] == j && !j.write
    requires !DataBefore(q.log, |q.log|, j.id) && forall k :: k in q.pending ==> k.id != j.id
    ensures Served(Deliver(q, j)) && DataBefore(Deliver(q, j).log, |Deliver(q, j).log|, j.id)
  {
    DataFirstMore(q.log, q.accepted, Data(j.id));
    forall id: nat
      ensures DataBefore(q.log + [Data(j.id)], |q.log| + 1, id) <==> DataBefore(q.log, |q.log|, id) || id == j.id
      ensures forall i :: 0 <= i <= |q.log| ==> (DataBefore(q.log + [Data(j.id)], i, id) <==> DataBefore(q.log, i, id))
    {
      DataGrows(q.log, Data(j.id), id);
    }
    assert forall i :: 0 <= i < |q.log| && q.log[i].Data? ==> q.log[i] == Data(q.log[i].id);
  }

  lemma {:induction false} CompleteServed(q: Queue, j: Job)
    requires Served(q) && j.id < |q.accepted| && q.accepted[j.id] == j && (j.write || DataBefore(q.log, |q.log|, j.id))
    ensures Served(Complete(q, j))
  {
    var r := Completed(j.id, j.tag);
    DataFirstMore(q.log, q.accepted, r);
    forall id: nat
      ensures DataBefore(q.log + [r], |q.log| + 1, id) <==> DataBefore(q.log, |q.log|, id)
      ensures forall i :: 0 <= i <= |q.log| ==> (DataBefore(q.log + [r], i, id) <==> DataBefore(q.log, i, id))
    {
      DataGrows(q.log, r, id);
    }
  }

  lemma {:induction false} TakeServed(q: Queue, j: Job)
    requires Valid(q) && Served(q) && j in q.pending
    ensures Served(Take(q, j)) && j.id < |q.accepted| && q.accepted[j.id] == j && !DataBefore(q.log, |q.log|, j.id)
    ensures forall k :: k in Take(q, j).pending ==> k.id != j.id
  {
  }

  lemma {:induction false} AcceptServed(q: Queue, tag: nat, write: bool)
    requires Valid(q) && Served(q)
    ensures Served(Accept(q, tag, write).0)
  {
    var r := Accept(q, tag, write).0;
    forall i | 0 <= i < |q.log| && q.log[i].Completed?
      ensures InOrder(q.log, r.accepted, i)
    {
      assert InOrder(q.log, q.accepted, i);
    }
  }

  lemma {:induction false} StepServed(q: Queue, a: Action)
    requires Valid(q) && Served(q)
    ensures Served(Step(q, a))
  {
    match a
    case Arrives(tag, write, good) =>
      if good && tag !in q.active {
        AcceptServed(q, tag, write);
      } else {
        FailServed(q);
      }
    case Finishes(j, memory) =>
      if j in q.pending {
        TakeServed(q, j);
        if j.epoch == q.epoch {
          if j.write {
            CompleteServed(Take(q, j), j);
          } else if memory {
            DeliverServed(Take(q, j), j);
            CompleteServed(Deliver(Take(q, j), j), j);
          } else {
            FailServed(Take(q, j));
          }
        }
      }
    case Stops =>
  }

  /**
   In every run a completion is that of an accepted command and has its tag; a read has its data in guest
   memory before it, once, and no write has any.
   */
  lemma {:induction false} RunServed(actions: seq<Action>)
    ensures Served(Run(EMPTY, actions))
  {
    if actions != [] {
      var n := |actions| - 1;
      RunValid(actions[..n]);
      RunServed(actions[..n]);
      StepServed(Run(EMPTY, actions[..n]), actions[n]);
    }
  }
}
