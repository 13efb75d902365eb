// The sequential job executor: at most one job runs, and jobs start in the order they were accepted.
module JobExecution {
  import opened Numbers

  // A job adds others while it starts up, then either throws at once or goes on in the background.
  datatype Job = Job(id: nat, adds: seq<Job>, throws: bool)

  // `accepted` and `started` are the jobs queued and started so far, `settled` counts those that have ended.
  datatype Exec = Exec(queue: seq<Job>, running: bool, accepted: seq<Job>, started: seq<Job>, settled: nat)

  predicate HasId(js: seq<Job>, id: nat) {
    exists i | 0 <= i < |js| :: js[i].id == id
  }

  // Jobs in the list, counting those that its jobs add, and so on.
  function Weight(js: seq<Job>): nat {
    if js == [] then 0 else 1 + Weight(js[0].adds) + Weight(js[1..])
  }

  function Enqueued(e: Exec, j: Job): Exec {
    if HasId(e.queue, j.id) then e else e.(queue := e.queue + [j], accepted := e.accepted + [j])
  }

  function EnqueuedAll(e: Exec, js: seq<Job>): Exec
    decreases |js|
  {
    if js == [] then e else EnqueuedAll(Enqueued(e, js[0]), js[1..])
  }

  // `runJobsSequentially`: start the next job unless one is running; one that throws at once makes room.
  function Kicked(e: Exec): Exec
    decreases Weight(e.queue)
  {
    if e.running || e.queue == [] then e
    else
      var j := e.queue[0];
      var up := e.(queue := e.queue[1..], running := true, started := e.started + [j]);
      EnqueuedWeight(up, j.adds);
      var after := EnqueuedAll(up, j.adds);
      if j.throws then Kicked(after.(running := false, settled := after.settled + 1)) else after
  }

  function Added(e: Exec, j: Job): Exec {
    Kicked(Enqueued(e, j))
  }

  // The running job ends, well or not.
  function Settled(e: Exec): Exec {
    if e.running then Kicked(e.(running := false, settled := e.settled + 1)) else e
  }

  lemma {:induction false} WeightConcat(a: seq<Job>, b: seq<Job>)
    ensures Weight(a + b) == Weight(a) + Weight(b)
  {
    if a == [] {
      assert a + b == b;
    } else {
      assert (a + b)[1..] == a[1..] + b;
      WeightConcat(a[1..], b);
    }
  }

  lemma WeightOne(j: Job)
    ensures Weight([j]) == 1 + Weight(j.adds)
  {
    assert [j][1..] == [];
  }

  lemma {:induction false} EnqueuedWeight(e: Exec, js: seq<Job>)
    ensures Weight(EnqueuedAll(e, js).queue) <= Weight(e.queue) + Weight(js)
    ensures EnqueuedAll(e, js).running == e.running && EnqueuedAll(e, js).settled == e.settled
    ensures EnqueuedAll(e, js).started == e.started
    decreases |js|
  {
    if js != [] {
      EnqueuedWeight(Enqueued(e, js[0]), js[1..]);
      WeightConcat(e.queue, [js[0]]);
      WeightOne(js[0]);
    }
  }

  // ----- the invariant -----

  // What holds even while a job is being started.
  ghost predicate Ordered(e: Exec) {
    && e.accepted == e.started + e.queue
    && (forall i, j | 0 <= i < j < |e.queue| :: e.queue[i].id != e.queue[j].id)
    && |e.started| == e.settled + (if e.running then 1 else 0)
  }

  // What holds between turns as well: no queued job is left without one running before it.
  ghost predicate Valid(e: Exec) {
    Ordered(e) && (e.queue != [] ==> e.running)
  }

  lemma {:induction false} EnqueuedAllOrdered(e: Exec, js: seq<Job>)
    requires Ordered(e)
    ensures Ordered(EnqueuedAll(e, js)) && e.accepted <= EnqueuedAll(e, js).accepted
    decreases |js|
  {
    if js != [] {
      EnqueuedAllOrdered(Enqueued(e, js[0]), js[1..]);
    }
  }

  // Starting a job empties no queue it should not, and leaves nobody waiting for nothing.
  lemma {:induction false} KickedValid(e: Exec)
    requires Ordered(e)
    ensures Valid(Kicked(e)) && e.accepted <= Kicked(e).accepted && e.started <= Kicked(e).started
    ensures !e.running && e.queue != [] ==> |Kicked(e).started| > |e.started|
    decreases Weight(e.queue)
  {
    if !e.running && e.queue != [] {
      var j := e.queue[0];
      var up := e.(queue := e.queue[1..], running := true, started := e.started + [j]);
      EnqueuedWeight(up, j.adds);
      EnqueuedAllOrdered(up, j.adds);
      var after := EnqueuedAll(up, j.adds);
      if j.throws {
        KickedValid(after.(running := false, settled := after.settled + 1));
      }
    }
  }

  // ----- who is accepted -----

  // An add is accepted, behind all others, exactly when no waiting job has its id; while a job runs that is all
  // it does, and otherwise the accepted job starts.
  lemma AddAccepts(e: Exec, j: Job)
    requires Valid(e)
    ensures var r := Added(e, j);
            && (HasId(e.queue, j.id) ==> r == e)
            && (!HasId(e.queue, j.id) && e.running ==> r == e.(queue := e.queue + [j], accepted := e.accepted + [j]))
            && (!HasId(e.queue, j.id) && !e.running ==> e.accepted + [j] <= r.accepted && e.started + [j] <= r.started)
  {
    if !HasId(e.queue, j.id) && !e.running {
      StartsFirst(Enqueued(e, j));
    }
  }

  lemma StartsFirst(e: Exec)
    requires Ordered(e) && !e.running && e.queue != []
    ensures e.accepted <= Kicked(e).accepted && e.started + [e.queue[0]] <= Kicked(e).started
  {
    var j := e.queue[0];
    var up := e.(queue := e.queue[1..], running := true, started := e.started + [j]);
    EnqueuedAllOrdered(up, j.adds);
    EnqueuedWeight(up, j.adds);
    var after := EnqueuedAll(up, j.adds);
    if j.throws {
      KickedValid(after.(running := false, settled := after.settled + 1));
    }
  }

  // A job that adds others while it starts: afterwards each of their ids is waiting, nobody has left the queue,
  // and only they have joined it.
  lemma {:induction false} AddsJoin(e: Exec, js: seq<Job>)
    ensures var r := EnqueuedAll(e, js);
            && e.queue <= r.queue && e.accepted <= r.accepted && r.queue[|e.queue|..] == r.accepted[|e.accepted|..]
            && (forall i | 0 <= i < |js| :: HasId(r.queue, js[i].id))
            && (forall i | |e.queue| <= i < |r.queue| :: r.queue[i] in js)
    decreases |js|
  {
    if js != [] {
      var next := Enqueued(e, js[0]);
      AddsJoin(next, js[1..]);
      var r := EnqueuedAll(e, js);
      var n := |e.queue|;
      if HasId(e.queue, js[0].id) {
        n := IdAt(e.queue, js[0].id);
      }
      assert r.queue[n] == next.queue[n] && r.queue[n].id == js[0].id;
      forall i | 0 <= i < |js|
        ensures HasId(r.queue, js[i].id)
      {
        assert i > 0 ==> js[i] == js[1..][i - 1];
      }
    }
  }

  lemma IdAt(js: seq<Job>, id: nat) returns (i: nat)
    requires HasId(js, id)
    ensures i < |js| && js[i].id == id
  {
    i :| 0 <= i < |js| && js[i].id == id;
  }

  // Everybody whom a started job added has been accepted, under that id, and the running job is the last one
  // started, which has not thrown.
  ghost predicate Faithful(e: Exec) {
    && (forall s, a | s in e.started && a in s.adds :: HasId(e.accepted, a.id))
    && (e.running ==> e.started != [] && !e.started[|e.started| - 1].throws)
  }

  lemma HasIdLater(js: seq<Job>, ks: seq<Job>, id: nat)
    requires HasId(js, id) && js <= ks
    ensures HasId(ks, id)
  {
    var i := IdAt(js, id);
    assert ks[i].id == id;
  }

  lemma HasIdBehind(front: seq<Job>, js: seq<Job>, id: nat)
    requires HasId(js, id)
    ensures HasId(front + js, id)
  {
    var i := IdAt(js, id);
    assert (front + js)[|front| + i].id == id;
  }

  lemma {:induction false} KickedFaithful(e: Exec)
    requires Ordered(e) && Faithful(e)
    ensures Faithful(Kicked(e))
    decreases Weight(e.queue)
  {
    if !e.running && e.queue != [] {
      var j := e.queue[0];
      var up := e.(queue := e.queue[1..], running := true, started := e.started + [j]);
      EnqueuedWeight(up, j.adds);
      EnqueuedAllOrdered(up, j.adds);
      var after := EnqueuedAll(up, j.adds);
      AddsAccepted(e, after, j, up);
      if j.throws {
        KickedFaithful(after.(running := false, settled := after.settled + 1));
      }
    }
  }

  lemma AddsAccepted(e: Exec, after: Exec, j: Job, up: Exec)
    requires Faithful(e) && Ordered(after) && after == EnqueuedAll(up, j.adds)
    requires up.accepted == e.accepted && up.started == e.started + [j] == after.started
    ensures forall s, a | s in after.started && a in s.adds :: HasId(after.accepted, a.id)
  {
    AddsJoin(up, j.adds);
    forall s, a | s in after.started && a in s.adds
      ensures HasId(after.accepted, a.id)
    {
      if s in e.started {
        HasIdLater(e.accepted, after.accepted, a.id);
      } else {
        var i :| 0 <= i < |j.adds| && j.adds[i] == a;
        HasIdBehind(after.started, after.queue, a.id);
      }
    }
  }

  // ----- every sequence of turns -----

  datatype Turn = Add(job: Job) | Settle

  function Run(e: Exec, turns: seq<Turn>): Exec
    decreases |turns|
  {
    if turns == [] then e
    else Run(After(e, turns[0]), turns[1..])
  }

  function After(e: Exec, turn: Turn): Exec {
    match turn case Add(j) => Added(e, j) case Settle => Settled(e)
  }

  lemma EnqueuedFaithful(e: Exec, j: Job)
    requires Faithful(e)
    ensures Faithful(Enqueued(e, j))
  {
    forall s, a | s in e.started && a in s.adds
      ensures HasId(Enqueued(e, j).accepted, a.id)
    {
      HasIdLater(e.accepted, Enqueued(e, j).accepted, a.id);
    }
  }

  lemma TurnInOrder(e: Exec, turn: Turn)
    requires Valid(e)
    ensures var r := After(e, turn);
            && Valid(r) && (Faithful(e) ==> Faithful(r))
            && e.accepted <= r.accepted && e.started <= r.started
            && (turn.Settle? ==> |r.started| > |e.started| || |e.started| == |e.accepted|)
  {
    match turn {
      case Add(j) =>
        KickedValid(Enqueued(e, j));
        if Faithful(e) {
          EnqueuedFaithful(e, j);
          KickedFaithful(Enqueued(e, j));
        }
      case Settle =>
        if e.running {
          var free := e.(running := false, settled := e.settled + 1);
          KickedValid(free);
          if Faithful(e) {
            KickedFaithful(free);
          }
        }
    }
  }

  function Settles(turns: seq<Turn>): nat {
    if turns == [] then 0 else (if turns[0].Settle? then 1 else 0) + Settles(turns[1..])
  }

  const IDLE := Exec([], false, [], [], 0)

  // For every mix of adds, adds from inside starting jobs, completions and failures: one job at a time, in
  // order of acceptance, and whatever was accepted by now is started after as many completions as there
  // were jobs before it in the queue.
  lemma {:induction false} RunsInOrder(e: Exec, turns: seq<Turn>)
    requires Valid(e)
    ensures var r := Run(e, turns);
            && Valid(r) && (Faithful(e) ==> Faithful(r))
            && e.accepted <= r.accepted && e.started <= r.started
            && |r.started| >= Min(|e.accepted|, |e.started| + Settles(turns))
    decreases |turns|
  {
    if turns != [] {
      TurnInOrder(e, turns[0]);
      RunsInOrder(After(e, turns[0]), turns[1..]);
    }
  }

  // From the start: at most one job runs, waiting ids differ, none waits while nothing runs, and the started
  // jobs followed by the queue are the accepted ones, so none starts twice.
  lemma ExecutorLaws(turns: seq<Turn>)
    ensures var r := Run(IDLE, turns);
            && r.started + r.queue == r.accepted
            && r.settled <= |r.started| <= r.settled + 1
            && (r.running <==> |r.started| == r.settled + 1)
            && (!r.running ==> r.queue == [])
            && (forall i, j | 0 <= i < j < |r.queue| :: r.queue[i].id != r.queue[j].id)
            && (r.running ==> r.started != [] && !r.started[|r.started| - 1].throws)
            && (forall s, a | s in r.started && a in s.adds :: HasId(r.accepted, a.id))
  {
    RunsInOrder(IDLE, turns);
  }

  // Jobs start in the order in which they were accepted.
  lemma StartsInTurn(e: Exec, later: Exec, p: nat)
    requires e.started + e.queue == e.accepted <= later.accepted && later.started <= later.accepted
    requires p < |e.queue| && |e.started| + p < |later.started|
    ensures later.started[|e.started| + p] == e.queue[p]
  {
    assert later.started[|e.started| + p] == e.accepted[|e.started| + p];
  }

  // The p-th job waiting at some point has started once p + 1 jobs have ended, whatever is added meanwhile.
  lemma WaitIsBounded(before: seq<Turn>, turns: seq<Turn>, p: nat)
    requires var e := Run(IDLE, before); p < |e.queue| && Settles(turns) > p
    ensures var e, r := Run(IDLE, before), Run(Run(IDLE, before), turns);
            |e.started| + p < |r.started| && r.started[|e.started| + p] == e.queue[p]
  {
    RunsInOrder(IDLE, before);
    WaitFrom(Run(IDLE, before), turns, p);
  }

  lemma WaitFrom(e: Exec, turns: seq<Turn>, p: nat)
    requires Valid(e) && p < |e.queue| && Settles(turns) > p
    ensures var r := Run(e, turns); |e.started| + p < |r.started| && r.started[|e.started| + p] == e.queue[p]
  {
    RunsInOrder(e, turns);
    StartsInTurn(e, Run(e, turns), p);
  }

  // ----- the executor object -----

  class JobExecutor {
    var jobQueue: seq<Job>
    var isJobRunning: bool
    ghost var accepted: seq<Job>
    ghost var started: seq<Job>
    ghost var settled: nat

    ghost function Current(): Exec
      reads this
    {
      Exec(jobQueue, isJobRunning, accepted, started, settled)
    }

    constructor ()
      ensures Current() == IDLE
    {
      jobQueue, isJobRunning := [], false;
      accepted, started, settled := [], [], 0;
    }

    method Queued(jobId: nat) returns (found: bool)
      ensures found <==> HasId(jobQueue, jobId)
    {
      var i := 0;
      while i < |jobQueue|
        invariant i <= |jobQueue| && forall j | 0 <= j < i :: jobQueue[j].id != jobId
      {
        if jobQueue[i].id == jobId {
          return true;
        }
        i := i + 1;
      }
      return false;
    }

    method AddToQueue(job: Job)
      modifies this
      ensures Current() == Added(old(Current()), job)
      decreases Weight(jobQueue) + Weight([job]), 1
    {
      WeightConcat(jobQueue, [job]);
      var found := Queued(job.id);
      if !found {
        jobQueue := jobQueue + [job];
        accepted := accepted + [job];
      }
      RunJobsSequentially();
    }

    // Calls the job function: its start-up part runs here and may come back to `AddToQueue`.
    method RunJobsSequentially()
      modifies this
      ensures Current() == Kicked(old(Current()))
      decreases Weight(jobQueue), 0
    {
      if isJobRunning || |jobQueue| == 0 {
        return;
      }
      isJobRunning := true;
      var job := jobQueue[0];
      jobQueue := jobQueue[1..];
      started := started + [job];
      ghost var up := Current();
      var i := 0;
      while i < |job.adds|
        invariant i <= |job.adds|
        invariant isJobRunning && EnqueuedAll(Current(), job.adds[i..]) == EnqueuedAll(up, job.adds)
        invariant Weight(jobQueue) + Weight(job.adds[i..]) <= Weight(up.queue) + Weight(job.adds)
      {
        WeightConcat(jobQueue, [job.adds[i]]);
        WeightOne(job.adds[i]);
        AddToQueue(job.adds[i]);
        i := i + 1;
      }
      if job.throws {
        EnqueuedWeight(up, job.adds);
        isJobRunning := false;
        settled := settled + 1;
        RunJobsSequentially();
      }
    }

    // The promise of the running job settles.
    method JobSettled()
      requires isJobRunning
      modifies this
      ensures Current() == Settled(old(Current()))
    {
      isJobRunning := false;
      settled := settled + 1;
      RunJobsSequentially();
    }
  }
}
