/**
 * BFTClientPool.cpp: a pool of `numClients` reusable clients with a bounded
 * queue of waiting requests (admission control), and the `ThreadPool` it
 * submits work to.  Client handles are numbered 1..numClients as the
 * constructor numbers them.
 */
module ClientPools {
  import opened Common

  /** The `ThreadPool` of BFTClientPool.cpp: `submit` never looks at `stop_`. */
  class ThreadPool {
    /** `numThreads`. */
    const numThreads: nat
    /** `tasks_`. */
    var tasks: seq<CallbackId>
    /** `stop_`. */
    var stopped: bool
    /** Jobs taken by workers, in the order taken. */
    var started: seq<CallbackId>
    /** Every job submitted, in order. */
    ghost var submitted: seq<CallbackId>

    ghost predicate Valid()
      reads this
    {
      submitted == started + tasks
    }

    constructor (numThreads: nat)
      ensures Valid() && this.numThreads == numThreads
      ensures tasks == [] && started == [] && !stopped
    {
      this.numThreads := numThreads;
      tasks := [];
      stopped := false;
      started := [];
      submitted := [];
    }

    /** `submit`: appends the job, stopped or not. */
    method Submit(job: CallbackId)
      requires Valid()
      modifies this
      ensures Valid() && stopped == old(stopped) && started == old(started)
      ensures tasks == old(tasks) + [job] && submitted == old(submitted) + [job]
    {
      tasks := tasks + [job];
      submitted := submitted + [job];
    }

    /** One iteration of `worker`, enabled when `stop_ || !tasks_.empty()`. */
    method WorkerStep() returns (job: Option<CallbackId>)
      requires Valid() && (stopped || tasks != [])
      modifies this
      ensures Valid() && stopped == old(stopped) && submitted == old(submitted)
      ensures job == None <==> old(stopped) && old(tasks) == []
      ensures job == None ==> tasks == old(tasks) && started == old(started)
      ensures job.Some? ==>
        job.value == old(tasks)[0] && tasks == old(tasks)[1..] && started == old(started) + [job.value]
    {
      if stopped && tasks == [] {
        return None;
      }
      var next := tasks[0];
      tasks := tasks[1..];
      started := started + [next];
      return Some(next);
    }

    /** `shutdown`: sets `stop_` and joins the workers, who take every queued
        job before exiting (when there is any worker at all). */
    method Shutdown()
      requires Valid()
      modifies this
      ensures Valid() && stopped && submitted == old(submitted)
      ensures numThreads > 0 ==> tasks == [] && started == old(started) + old(tasks)
      ensures numThreads == 0 ==> tasks == old(tasks) && started == old(started)
    {
      stopped := true;
      if numThreads > 0 {
        while tasks != []
          invariant Valid() && stopped && submitted == old(submitted)
          invariant started + tasks == old(started) + old(tasks)
          decreases |tasks|
        {
          var job := WorkerStep();
        }
      }
    }
  }

  /** `RequestJob`: the request text and its optional completion callback. */
  datatype RequestJob = RequestJob(request: string, callback: Option<CallbackId>)

  /** A job submitted to the thread pool: one request served by one client. */
  datatype Work = Work(client: nat, job: RequestJob)

  /** The clients held by in-flight work, in order. */
  function ClientsOf(works: seq<Work>): seq<nat> {
    seq(|works|, i requires 0 <= i < |works| => works[i].client)
  }

  /** Handing the front idle client to new work moves it from the idle queue
      to the busy clients. */
  lemma HandOver(clients: seq<nat>, inFlight: seq<Work>, job: RequestJob)
    requires clients != []
    ensures multiset(clients[1..]) + multiset(ClientsOf(inFlight + [Work(clients[0], job)]))
         == multiset(clients) + multiset(ClientsOf(inFlight))
  {
    assert clients == [clients[0]] + clients[1..];
    assert ClientsOf(inFlight + [Work(clients[0], job)]) == ClientsOf(inFlight) + [clients[0]];
  }

  /** The handles the constructor creates: 1, 2, …, n. */
  function AllClients(n: nat): seq<nat> {
    seq(n, i => i + 1)
  }

  /** Removing the `i`-th in-flight work gives up exactly its client. */
  lemma ClientsOfRemove(works: seq<Work>, i: nat)
    requires i < |works|
    ensures multiset(ClientsOf(works[..i] + works[i + 1..]))
         == multiset(ClientsOf(works)) - multiset{works[i].client}
  {
    var all := ClientsOf(works);
    var rest := ClientsOf(works[..i] + works[i + 1..]);
    assert rest == all[..i] + all[i + 1..];
    assert all == all[..i] + [all[i]] + all[i + 1..];
  }

  /** Giving the client of the `i`-th in-flight work back to the idle queue
      keeps the clients, idle and busy together, as they were. */
  lemma ReturnClient(clients: seq<nat>, inFlight: seq<Work>, i: nat)
    requires i < |inFlight|
    ensures multiset(clients + [inFlight[i].client]) + multiset(ClientsOf(inFlight[..i] + inFlight[i + 1..]))
         == multiset(clients) + multiset(ClientsOf(inFlight))
  {
    ClientsOfRemove(inFlight, i);
    assert inFlight[i].client in multiset(ClientsOf(inFlight)) by {
      assert ClientsOf(inFlight)[i] == inFlight[i].client;
    }
  }

  class BFTClientPool {
    /** `numClients`. */
    const numClients: nat
    /** `maxPending_`. */
    const maxPending: nat
    /** `clients_`: the idle clients, front first. */
    var clients: seq<nat>
    /** `pending_`: accepted requests waiting for a client. */
    var pending: seq<RequestJob>
    /** Work submitted to `threadPool_` that has not yet returned its client. */
    var inFlight: seq<Work>
    /** Every piece of work submitted to `threadPool_`, in order. */
    var submitted: seq<Work>
    /** Completion callbacks run so far, in order. */
    var callbacksRun: seq<CallbackId>

    /** The pending queue stays within its bound; the idle and the busy
        clients are together exactly the clients the constructor made, each
        once.  A request may wait while a client is idle: a finished job
        returns its client and drains the pending queue in two separate
        critical sections. */
    ghost predicate Valid()
      reads this
    {
      && |pending| <= maxPending
      && multiset(clients) + multiset(ClientsOf(inFlight)) == multiset(AllClients(numClients))
    }

    constructor (numClients: nat, maxPending: nat)
      ensures Valid() && this.numClients == numClients && this.maxPending == maxPending
      ensures clients == AllClients(numClients)
      ensures pending == [] && inFlight == [] && submitted == [] && callbacksRun == []
    {
      this.numClients := numClients;
      this.maxPending := maxPending;
      clients := AllClients(numClients);
      pending := [];
      inFlight := [];
      submitted := [];
      callbacksRun := [];
    }

    /** `sendRequest`: an idle client takes the request at once; otherwise the
        request waits if there is room and is rejected (`false`, nothing
        changed) if the pending queue is full. */
    method SendRequest(req: string, callback: Option<CallbackId>) returns (accepted: bool)
      requires Valid()
      modifies this
      ensures Valid() && callbacksRun == old(callbacksRun)
      ensures !accepted <==> old(clients) == [] && |old(pending)| >= maxPending
      ensures !accepted ==>
        clients == old(clients) && pending == old(pending) && inFlight == old(inFlight) && submitted == old(submitted)
      ensures old(clients) != [] ==>
        && accepted
        && clients == old(clients)[1..]
        && pending == old(pending)
        && inFlight == old(inFlight) + [Work(old(clients)[0], RequestJob(req, callback))]
        && submitted == old(submitted) + [Work(old(clients)[0], RequestJob(req, callback))]
      ensures old(clients) == [] && accepted ==>
        && pending == old(pending) + [RequestJob(req, callback)]
        && clients == old(clients) && inFlight == old(inFlight) && submitted == old(submitted)
    {
      if clients != [] {
        var client := clients[0];
        var work := Work(client, RequestJob(req, callback));
        HandOver(clients, inFlight, work.job);
        clients := clients[1..];
        inFlight := inFlight + [work];
        submitted := submitted + [work];
        return true;
      }
      if |pending| >= maxPending {
        return false;
      }
      pending := pending + [RequestJob(req, callback)];
      return true;
    }

    /** The body of a submitted job once the client has served the request,
        up to the end of its critical section: the callback runs and the
        client goes to the back of the idle queue.  The `drainPendingQueue`
        call that follows is the separate step `DrainPendingQueue`; other
        threads may act in between. */
    method Complete(i: nat)
      requires Valid() && i < |inFlight|
      modifies this
      ensures Valid()
      ensures callbacksRun == old(callbacksRun) + match old(inFlight)[i].job.callback
        case Some(cb) => [cb]
        case None => []
      ensures clients == old(clients) + [old(inFlight)[i].client]
      ensures inFlight == old(inFlight)[..i] + old(inFlight)[i + 1..]
      ensures pending == old(pending) && submitted == old(submitted)
    {
      var work := inFlight[i];
      if work.job.callback.Some? {
        callbacksRun := callbacksRun + [work.job.callback.value];
      }
      ReturnClient(clients, inFlight, i);
      inFlight := inFlight[..i] + inFlight[i + 1..];
      clients := clients + [work.client];
    }

    /** `drainPendingQueue`: when a request waits and a client is idle, the
        oldest request goes to the front idle client and is submitted;
        otherwise nothing. */
    method DrainPendingQueue()
      requires Valid()
      modifies this`clients, this`pending, this`inFlight, this`submitted
      ensures Valid()
      ensures old(pending) == [] || old(clients) == [] ==>
        clients == old(clients) && pending == old(pending) && inFlight == old(inFlight) && submitted == old(submitted)
      ensures old(pending) != [] && old(clients) != [] ==>
        && pending == old(pending)[1..]
        && clients == old(clients)[1..]
        && inFlight == old(inFlight) + [Work(old(clients)[0], old(pending)[0])]
        && submitted == old(submitted) + [Work(old(clients)[0], old(pending)[0])]
    {
      if pending == [] || clients == [] {
        return;
      }
      var job := pending[0];
      pending := pending[1..];
      var client := clients[0];
      var work := Work(client, job);
      HandOver(clients, inFlight, job);
      clients := clients[1..];
      inFlight := inFlight + [work];
      submitted := submitted + [work];
    }
  }

  /** Conservation of clients: idle plus busy is always `numClients`. */
  lemma ClientsConserved(clients: seq<nat>, inFlight: seq<Work>, numClients: nat)
    requires multiset(clients) + multiset(ClientsOf(inFlight)) == multiset(AllClients(numClients))
    ensures |clients| + |inFlight| == numClients
  {
    assert |multiset(clients) + multiset(ClientsOf(inFlight))| == |multiset(AllClients(numClients))|;
  }
}
