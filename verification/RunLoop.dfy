/**
  * The queue of jobs that run once, at the next turn of the event loop: a linked
  * list with a tail pointer, drained by a loop whose jobs append to it.
  */
module RunLoop {
  /** A job; running it queues the jobs it spawns, in order. */
  datatype Job<T> = Job(what: T, spawn: seq<Job<T>>)

  // ---- The order in which a queue of jobs is run ----

  /** All the jobs these jobs lead to, themselves included. */
  function Size<T>(q: seq<Job<T>>): nat {
    if q == [] then 0 else 1 + Size(q[0].spawn) + Size(q[1..])
  }

  lemma {:induction false} SizeConcat<T>(a: seq<Job<T>>, b: seq<Job<T>>)
    ensures Size(a + b) == Size(a) + Size(b)
  {
    if a == [] {
      assert a + b == b;
    } else {
      SizeConcat(a[1..], b);
      assert (a + b)[1..] == a[1..] + b;
    }
  }

  /** First in, first out: the jobs a job spawns go to the end of the queue. */
  function Fifo<T>(q: seq<Job<T>>): seq<Job<T>>
    decreases Size(q)
  {
    if q == [] then [] else
      SizeConcat(q[1..], q[0].spawn);
      [q[0]] + Fifo(q[1..] + q[0].spawn)
  }

  lemma FifoStep<T>(ran: seq<Job<T>>, q: seq<Job<T>>, rest: seq<Job<T>>)
    requires q != [] && rest == q[1..] + q[0].spawn
    ensures ran + Fifo(q) == (ran + [q[0]]) + Fifo(rest) && Size(rest) < Size(q)
  {
    SizeConcat(q[1..], q[0].spawn);
  }

  /** The jobs spawned by these jobs. */
  function Spawned<T>(q: seq<Job<T>>): seq<Job<T>> {
    if q == [] then [] else q[0].spawn + Spawned(q[1..])
  }

  lemma {:induction false} SizeSpawned<T>(q: seq<Job<T>>)
    ensures Size(Spawned(q)) == Size(q) - |q|
  {
    if q != [] {
      SizeSpawned(q[1..]);
      SizeConcat(q[0].spawn, Spawned(q[1..]));
    }
  }

  lemma {:induction false} SpawnedConcat<T>(a: seq<Job<T>>, b: seq<Job<T>>)
    ensures Spawned(a + b) == Spawned(a) + Spawned(b)
  {
    if a == [] {
      assert a + b == b;
    } else {
      SpawnedConcat(a[1..], b);
      assert (a + b)[1..] == a[1..] + b;
      assert Spawned(a + b) == a[0].spawn + (Spawned(a[1..]) + Spawned(b));
    }
  }

  /** Breadth first: a whole generation, then the generation it spawns. */
  function LevelOrder<T>(q: seq<Job<T>>): seq<Job<T>>
    decreases Size(q)
  {
    if q == [] then [] else
      SizeSpawned(q);
      q + LevelOrder(Spawned(q))
  }

  /** A queue runs its first jobs before anything they spawn. */
  lemma {:induction false} FifoConcat<T>(a: seq<Job<T>>, b: seq<Job<T>>)
    ensures Fifo(a + b) == a + Fifo(b + Spawned(a))
    decreases |a|
  {
    if a == [] {
      assert a + b == b && b + Spawned(a) == b;
    } else {
      assert (a + b)[1..] + a[0].spawn == a[1..] + (b + a[0].spawn);
      FifoConcat(a[1..], b + a[0].spawn);
      assert b + a[0].spawn + Spawned(a[1..]) == b + Spawned(a);
      assert [a[0]] + a[1..] == a;
    }
  }

  /** A queue runs the forest of its jobs breadth first. */
  lemma {:induction false} FifoIsLevelOrder<T>(q: seq<Job<T>>)
    ensures Fifo(q) == LevelOrder(q)
    decreases Size(q)
  {
    if q != [] {
      SizeSpawned(q);
      FifoIsLevelOrder(Spawned(q));
      FifoConcat(q, []);
      assert q + [] == q && [] + Spawned(q) == Spawned(q);
    }
  }

  /** How often a job occurs in a forest. */
  ghost function Count<T>(q: seq<Job<T>>, job: Job<T>): nat {
    if q == [] then 0 else (if q[0] == job then 1 else 0) + Count(q[0].spawn, job) + Count(q[1..], job)
  }

  lemma {:induction false} CountConcat<T>(a: seq<Job<T>>, b: seq<Job<T>>, job: Job<T>)
    ensures Count(a + b, job) == Count(a, job) + Count(b, job)
  {
    if a == [] {
      assert a + b == b;
    } else {
      CountConcat(a[1..], b, job);
      assert (a + b)[1..] == a[1..] + b;
    }
  }

  /** Every job of the forest is run exactly as often as it occurs there, and no other is. */
  lemma {:induction false} EachRunsOnce<T>(q: seq<Job<T>>, job: Job<T>)
    ensures multiset(LevelOrder(q))[job] == Count(q, job)
    decreases Size(q)
  {
    FifoIsLevelOrder(q);
    if q != [] {
      var rest := q[1..] + q[0].spawn;
      SizeConcat(q[1..], q[0].spawn);
      FifoIsLevelOrder(rest);
      EachRunsOnce(rest, job);
      CountConcat(q[1..], q[0].spawn, job);
    }
  }

  /**
    * The order of a run is the one in which the jobs were queued: first the queue, then what each
    * job spawned, and nothing else is.
    */
  lemma {:induction false} QueuedInOrder<T>(q: seq<Job<T>>, run: seq<Job<T>>)
    ensures run == LevelOrder(q) <==> run == q + Spawned(run)
    decreases Size(q)
  {
    SizeSpawned(q);
    if q == [] {
      SizeSpawned(run);
      assert q + Spawned(run) == Spawned(run);
    } else {
      var rest := LevelOrder(Spawned(q));
      QueuedInOrder(Spawned(q), rest);
      SpawnedConcat(q, rest);
      if run == q + Spawned(run) {
        SpawnedConcat(q, Spawned(run));
        QueuedInOrder(Spawned(q), Spawned(run));
      }
    }
  }

  // ---- The linked list ----

  /** A heap block of the list; it may be touched only while it is live. */
  class Entry<T> {
    const job: Job<T>
    var next: Entry?<T>
    ghost var live: bool
    /** How many entries were made before it. */
    ghost const pos: nat

    constructor (job: Job<T>, ghost pos: nat)
      ensures this.job == job && this.pos == pos && next == null && live
    {
      this.job, this.pos := job, pos;
      next := null;
      live := true;
    }

    function Run(): Job<T>
      requires live
      reads this
    {
      job
    }

    method Next() returns (e: Entry?<T>)
      requires live
      ensures e == next
    {
      e := next;
    }

    method Link(e: Entry<T>)
      requires live
      modifies this`next
      ensures next == e
    {
      next := e;
    }

    method Free()
      requires live
      modifies this`live
      ensures !live
    {
      live := false;
    }
  }

  class RunLoop<T> {
    /** `run_once_queue`, which keeps its value while the queue is drained. */
    var queue: Entry?<T>
    /** `run_once_last`, which keeps its value after the queue is drained. */
    var last: Entry?<T>
    /** Whether libuv will call `run_once_prepare_cb` at its next turn. */
    var prepareActive: bool
    /** `run_once_prepare_started`, which is never set. */
    var prepareStarted: bool
    /** The jobs waiting to be run; during a drain the running one is first. */
    ghost var pending: seq<Job<T>>
    /** The jobs run so far, in order. */
    ghost var ran: seq<Job<T>>
    /** The entries ever made, how many of them have been freed, and the one the queue starts at. */
    ghost var entries: seq<Entry<T>>
    ghost var freed: nat
    ghost var first: nat

    /** The entries were made in this order, are live from `freed` on, and are linked from there to `end`. */
    ghost predicate Chain(end: Entry?<T>)
      reads this`entries, this`freed, entries
    {
      && (forall a | 0 <= a < |entries| :: entries[a].pos == a && (entries[a].live <==> freed <= a))
      && (forall a {:trigger entries[a].next} | freed <= a < |entries| ::
            entries[a].next == if a + 1 < |entries| then entries[a + 1] else end)
    }

    /** The live entries carry the pending jobs. */
    ghost predicate Carries()
      reads this`entries, this`freed, this`pending
    {
      freed + |pending| == |entries| && forall k | 0 <= k < |pending| :: pending[k] == entries[freed + k].job
    }

    /** The chain holds the pending jobs, and the queue starts with it unless a drain has freed its first entries. */
    ghost predicate Linked()
      reads this, entries
    {
      && first <= freed && Chain(null) && Carries()
      && queue == (if first < |entries| then entries[first] else null)
      && (queue != null ==> last == entries[|entries| - 1] && prepareActive)
      && !prepareStarted
    }

    /** True whenever a job may be queued: if there is a queue its last entry is live. */
    ghost predicate Valid()
      reads this, entries
    {
      Linked() && (queue != null ==> freed < |entries|)
    }

    /** No drain is under way. */
    ghost predicate Idle()
      reads this, entries
    {
      Valid() && freed == first
    }

    /** `runloop_bootstrap`. */
    constructor ()
      ensures Idle() && pending == [] && ran == [] && entries == []
    {
      queue, last := null, null;
      prepareActive, prepareStarted := false, false;
      pending, ran, entries, freed, first := [], [], [], 0, 0;
    }

    /** Linking an entry after the last one, or as the first of an empty queue. */
    method Append(e: Entry<T>)
      requires Valid() && e.next == null && e.live && e.pos == |entries|
      modifies this`queue, this`last, if queue == null then {} else {last}
      ensures queue == (if old(queue) == null then e else old(queue)) && last == e
      ensures Chain(e) && e.next == null && e.live
    {
      if queue == null {
        queue := e;
        last := e;
      } else {
        last.Link(e);
        last := e;
      }
    }

    /** Only new entries have been added to these. */
    twostate predicate More(was: seq<Entry<T>>)
      reads this
    {
      was <= entries && forall a | |was| <= a < |entries| :: fresh(entries[a])
    }

    /** `runloop_run_later`, which a job may call while the queue is drained. */
    method RunLater(job: Job<T>)
      requires Valid()
      modifies this`queue, this`last, this`prepareActive, this`pending, this`entries
      modifies if queue == null then {} else {last}
      ensures Valid() && prepareActive && queue != null
      ensures pending == old(pending) + [job]
      ensures old(queue) != null ==> queue == old(queue)
      ensures More(old(entries))
    {
      var e := new Entry(job, |entries|);
      Append(e);
      Record(e);
      if !prepareStarted {
        prepareActive := true;
      }
    }

    ghost method Record(e: Entry<T>)
      requires Carries() && Chain(e) && e.next == null && e.live && e.pos == |entries|
      modifies this`entries, this`pending
      ensures entries == old(entries) + [e] && pending == old(pending) + [e.job] && Chain(null) && Carries()
    {
      entries, pending := entries + [e], pending + [e.job];
    }

    /** Calling a job: it queues what it spawns. */
    method Call(job: Job<T>)
      requires Valid() && queue != null
      modifies this`queue, this`last, this`prepareActive, this`pending, this`entries, this`ran, entries
      ensures Valid() && queue == old(queue) && ran == old(ran) + [job]
      ensures pending == old(pending) + job.spawn
      ensures More(old(entries))
    {
      ran := ran + [job];
      for k := 0 to |job.spawn|
        invariant Valid() && queue == old(queue) && ran == old(ran) + [job]
        invariant pending == old(pending) + job.spawn[..k]
        invariant More(old(entries))
      {
        RunLater(job.spawn[k]);
      }
    }

    /** One turn of the drain: the job is called, and only then is the next entry read and this one freed. */
    method Turn(p: Entry<T>) returns (next: Entry?<T>)
      requires Valid() && queue != null && p == entries[freed]
      modifies this`queue, this`last, this`prepareActive, this`pending, this`entries, this`freed, this`ran, entries
      ensures Linked() && queue == old(queue) && More(old(entries))
      ensures next == (if freed < |entries| then entries[freed] else null)
      ensures ran == old(ran) + [p.job] && p.job == old(pending)[0]
      ensures pending == old(pending)[1..] + p.job.spawn
    {
      Call(p.Run());
      next := Release(p);
    }

    /** The entry after the one that ran, which is freed. */
    method Release(p: Entry<T>) returns (next: Entry?<T>)
      requires Valid() && queue != null && p == entries[freed]
      modifies this`pending, this`freed, p
      ensures Linked() && freed == old(freed) + 1 && pending == old(pending)[1..]
      ensures next == (if freed < |entries| then entries[freed] else null)
    {
      next := p.Next();
      p.Free();
      freed, pending := freed + 1, pending[1..];
    }

    /** `run_once_prepare_cb`. */
    method RunOncePrepare()
      requires Idle()
      modifies this, entries
      ensures Idle() && queue == null && pending == [] && !prepareActive
      ensures ran == old(ran) + LevelOrder(old(pending))
      ensures More(old(entries)) && freed == |entries|
    {
      FifoIsLevelOrder(pending);
      var p := queue;
      while p != null
        invariant Linked() && More(old(entries)) && queue == old(queue)
        invariant p == (if freed < |entries| then entries[freed] else null)
        invariant ran + Fifo(pending) == old(ran) + Fifo(old(pending))
        decreases Size(pending)
      {
        ghost var was, q := ran, pending;
        p := Turn(p);
        FifoStep(was, q, pending);
      }
      Stop();
    }

    /** After the last job: the queue is emptied, though `last` is not, and the handle is stopped. */
    method Stop()
      requires Linked() && freed == |entries|
      modifies this`queue, this`prepareActive, this`prepareStarted, this`first
      ensures Idle() && queue == null && !prepareActive
    {
      queue := null;
      prepareActive := false;
      prepareStarted := false;
      first := |entries|;
    }

    /** One turn of libuv: a pending job is never left behind, since the handle is active. */
    method LoopTurn()
      requires Idle()
      modifies this, entries
      ensures Idle() && pending == [] && freed == |entries| && ran == old(ran) + LevelOrder(old(pending))
    {
      if prepareActive {
        RunOncePrepare();
      }
    }
  }
}
