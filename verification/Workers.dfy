/** Queues, workers, answers and permits: src/db/engine.rs, src/db/worker.rs and the vector API of
    src/server/web.rs. */
module Workers {
  import opened Text

  /// State

  datatype Message = Command(id: int) | Shutdown

  /** A worker's bounded channel and the command it is working on. `open` is false once the worker has
      left its loop and dropped the receiver. */
  datatype Worker = Worker(capacity: nat, queue: seq<Message>, busy: Option<int>, open: bool)

  /** What a caller is told, once: the command's result, or that the worker stopped. */
  datatype Answer = Answered(id: int) | Stopped(id: int)

  datatype Refusal = QueueFull | WorkerStopped | RateLimited

  /** A vector API request owns its permit as long as it exists: first in the handler that waits for the
      answer, and after the timeout in a task of its own. */
  datatype Request = Waiting | Detached

  /** `accepted` are the commands some queue took, `vector` those of the vector API, `answers` every answer
      given so far. `requests` are the vector API requests that exist, by command, and `abandoned` those
      dropped before their answer. */
  datatype State = State(
    workers: seq<Worker>, accepted: seq<int>, vector: set<int>, answers: seq<Answer>,
    permits: nat, requests: map<int, Request>, abandoned: set<int>)

  /** The permits nobody owns. */
  function Available(s: State): int { s.permits - |s.requests| }

  predicate Fresh(s: State, id: int) { forall i :: 0 <= i < |s.accepted| ==> s.accepted[i] != id }

  /// Callers

  function Put(s: State, w: nat, worker: Worker): State
    requires w < |s.workers|
  {
    s.(workers := s.workers[w := worker])
  }

  /** `try_send`: into the queue, or refused at once. */
  function Send(worker: Worker, m: Message): Result<Worker, Refusal> {
    if !worker.open then Err(WorkerStopped)
    else if |worker.queue| >= worker.capacity then Err(QueueFull)
    else Ok(worker.(queue := worker.queue + [m]))
  }

  /** A command without a permit: SQL, describe, authenticate, snapshot. */
  function Submit(s: State, w: nat, id: int): Result<State, Refusal>
    requires w < |s.workers|
  {
    match Send(s.workers[w], Command(id))
    case Err(e) => Err(e)
    case Ok(worker) => Ok(Put(s, w, worker).(accepted := s.accepted + [id]))
  }

  /** A vector API request first takes a permit; when its command is refused the request is over, and its
      permit is back. */
  function SubmitVector(s: State, w: nat, id: int): Result<State, Refusal>
    requires w < |s.workers|
  {
    if Available(s) <= 0 then Err(RateLimited)
    else match Submit(s, w, id)
      case Err(e) => Err(e)
      case Ok(next) => Ok(next.(requests := s.requests[id := Waiting], vector := s.vector + {id}))
  }

  /// Workers

  function DroppedAnswers(queue: seq<Message>): seq<Answer> {
    if queue == [] then []
    else (if queue[0].Command? then [Stopped(queue[0].id)] else []) + DroppedAnswers(queue[1..])
  }

  /** One turn of the loop in `spawn_sql_worker`: answer the current command (a panic is an answer too), or
      receive the next message. On shutdown the receiver is dropped, and with it the waiting commands. */
  function Turn(s: State, w: nat): State
    requires w < |s.workers|
  {
    var k := s.workers[w];
    if k.busy.Some? then Put(s, w, k.(busy := None)).(answers := s.answers + [Answered(k.busy.value)])
    else if !k.open || k.queue == [] then s
    else match k.queue[0]
      case Command(id) => Put(s, w, k.(queue := k.queue[1..], busy := Some(id)))
      case Shutdown => Put(s, w, k.(queue := [], open := false)).(answers := s.answers + DroppedAnswers(k.queue[1..]))
  }

  predicate IsAnswered(s: State, id: int) { exists i :: 0 <= i < |s.answers| && s.answers[i].id == id }

  /** The timer fires first: the caller gets REQUEST_TIMEOUT, the request and its permit move to a task. */
  function TimeOut(s: State, id: int): State
    requires id in s.requests
  {
    s.(requests := s.requests[id := Detached])
  }

  /** The request is over, whoever was waiting for it, and its permit goes with it. */
  function End(s: State, id: int): State { s.(requests := s.requests - {id}) }

  /** `shutdown` on one queue: the message is tried once and lost when the queue is full. */
  function SendShutdown(s: State, w: nat): State
    requires w < |s.workers|
  {
    match Send(s.workers[w], Shutdown)
    case Err(_) => s
    case Ok(worker) => Put(s, w, worker)
  }

  /// Steps

  /** `Abandons` is a handler dropped while it waits, as when its client goes away: it takes the permit with
      it. A timeout that released the permit would be this step. */
  datatype Step =
    | Submits(w: nat, id: int)
    | SubmitsVector(w: nat, id: int)
    | Turns(w: nat)
    | TimesOut(id: int)
    | Completes(id: int)
    | Abandons(id: int)
    | ShutsDown(w: nat)

  /** Every command has an answer channel of its own. */
  predicate Enabled(s: State, step: Step) {
    match step
    case Submits(w, id) => w < |s.workers| && Fresh(s, id)
    case SubmitsVector(w, id) => w < |s.workers| && Fresh(s, id)
    case Turns(w) => w < |s.workers|
    case TimesOut(id) => id in s.requests && s.requests[id].Waiting?
    case Completes(id) => id in s.requests && IsAnswered(s, id)
    case Abandons(id) => id in s.requests && s.requests[id].Waiting?
    case ShutsDown(w) => w < |s.workers|
  }

  function Take(s: State, step: Step): State
    requires Enabled(s, step)
  {
    match step
    case Submits(w, id) => var r := Submit(s, w, id); if r.Ok? then r.value else s
    case SubmitsVector(w, id) => var r := SubmitVector(s, w, id); if r.Ok? then r.value else s
    case Turns(w) => Turn(s, w)
    case TimesOut(id) => TimeOut(s, id)
    case Completes(id) => End(s, id)
    case Abandons(id) => End(s, id).(abandoned := s.abandoned + {id})
    case ShutsDown(w) => SendShutdown(s, w)
  }

  predicate Runs(s: State, steps: seq<Step>)
    decreases |steps|
  {
    steps == [] || (Enabled(s, steps[0]) && Runs(Take(s, steps[0]), steps[1..]))
  }

  function After(s: State, steps: seq<Step>): State
    requires Runs(s, steps)
    decreases |steps|
  {
    if steps == [] then s else After(Take(s, steps[0]), steps[1..])
  }

  /// Conservation of commands

  /** The commands in a queue. */
  function Queued(queue: seq<Message>): multiset<int> {
    if queue == [] then multiset{}
    else (if queue[0].Command? then multiset{queue[0].id} else multiset{}) + Queued(queue[1..])
  }

  function AtWorker(k: Worker): multiset<int> {
    Queued(k.queue) + (if k.busy.Some? then multiset{k.busy.value} else multiset{})
  }

  function AtWorkers(ks: seq<Worker>): multiset<int> {
    if ks == [] then multiset{} else AtWorker(ks[0]) + AtWorkers(ks[1..])
  }

  function AnsweredIds(answers: seq<Answer>): multiset<int> {
    if answers == [] then multiset{} else multiset{answers[0].id} + AnsweredIds(answers[1..])
  }

  ghost predicate Unanswered(s: State, id: int) { id in AtWorkers(s.workers) }

  ghost predicate WorkersOk(ks: seq<Worker>) {
    forall w :: 0 <= w < |ks| ==> |ks[w].queue| <= ks[w].capacity && (!ks[w].open ==> ks[w].queue == [])
  }

  /** Every accepted command is in one queue, at one worker, or answered, once; queues are within capacity. */
  ghost predicate Conserved(s: State) {
    && AtWorkers(s.workers) + AnsweredIds(s.answers) == multiset(s.accepted)
    && (forall id :: multiset(s.accepted)[id] <= 1)
    && WorkersOk(s.workers)
  }

  ghost predicate IsOwned(s: State, id: int) {
    && (id in s.vector ==> id in multiset(s.accepted))
    && (id in s.vector && Unanswered(s, id) ==> (id in s.requests || id in s.abandoned))
  }

  /** Permits are never overdrawn, and an unanswered vector command has its request unless that was dropped. */
  ghost predicate PermitsOk(s: State) { Available(s) >= 0 && forall id :: IsOwned(s, id) }

  ghost predicate Inv(s: State) { Conserved(s) && PermitsOk(s) }

  lemma {:induction false} QueuedAppend(q: seq<Message>, m: Message)
    ensures Queued(q + [m]) == Queued(q) + (if m.Command? then multiset{m.id} else multiset{})
  {
    if q == [] {
      assert q + [m] == [m];
    } else {
      assert (q + [m])[1..] == q[1..] + [m];
      QueuedAppend(q[1..], m);
    }
  }

  lemma BothSides(a: multiset<int>, x: multiset<int>, y: multiset<int>, p: multiset<int>, q: multiset<int>)
    requires x + p == y + q
    ensures (a + x) + p == (a + y) + q
  {
    assert (a + x) + p == a + (x + p);
    assert (a + y) + q == a + (y + q);
  }

  lemma Swapped(a: multiset<int>, b: multiset<int>, c: multiset<int>)
    ensures (a + c) + b == (b + c) + a
  {}

  lemma {:induction false} AtWorkersPut(ks: seq<Worker>, w: nat, k: Worker)
    requires w < |ks|
    ensures AtWorkers(ks[w := k]) + AtWorker(ks[w]) == AtWorkers(ks) + AtWorker(k)
  {
    if w > 0 {
      assert ks[w := k][1..] == ks[1..][w - 1 := k] && ks[w := k][0] == ks[0];
      AtWorkersPut(ks[1..], w - 1, k);
      BothSides(AtWorker(ks[0]), AtWorkers(ks[1..][w - 1 := k]), AtWorkers(ks[1..]), AtWorker(ks[w]), AtWorker(k));
    } else {
      assert ks[w := k][1..] == ks[1..];
      Swapped(AtWorker(k), AtWorker(ks[0]), AtWorkers(ks[1..]));
    }
  }

  lemma {:induction false} AnsweredAppend(a: seq<Answer>, b: seq<Answer>)
    ensures AnsweredIds(a + b) == AnsweredIds(a) + AnsweredIds(b)
  {
    if a == [] {
      assert a + b == b;
    } else {
      assert (a + b)[1..] == a[1..] + b;
      AnsweredAppend(a[1..], b);
    }
  }

  lemma {:induction false} DroppedAreQueued(queue: seq<Message>)
    ensures AnsweredIds(DroppedAnswers(queue)) == Queued(queue)
  {
    if queue != [] {
      DroppedAreQueued(queue[1..]);
      var head := if queue[0].Command? then [Stopped(queue[0].id)] else [];
      AnsweredAppend(head, DroppedAnswers(queue[1..]));
      assert AnsweredIds(head) == if queue[0].Command? then multiset{queue[0].id} else multiset{};
    }
  }

  lemma OneAnswer(a: Answer)
    ensures AnsweredIds([a]) == multiset{a.id}
  {
    assert AnsweredIds([a]) == multiset{a.id} + AnsweredIds([]);
  }

  /// Each step conserves

  lemma Cancel(whole: multiset<int>, after: multiset<int>, was: multiset<int>, now: multiset<int>, more: multiset<int>)
    requires after + was == whole + now && now == was + more
    ensures after == whole + more
  {
    assert after + was == (whole + more) + was;
    assert (after + was) - was == after;
    assert ((whole + more) + was) - was == whole + more;
  }

  lemma EnqueuedAt(k: Worker, id: int)
    ensures AtWorker(k.(queue := k.queue + [Command(id)])) == AtWorker(k) + multiset{id}
  {
    QueuedAppend(k.queue, Command(id));
  }

  lemma AcceptConserves(s: State, w: nat, k1: Worker, id: int)
    requires Conserved(s) && w < |s.workers| && Fresh(s, id) && AtWorker(k1) == AtWorker(s.workers[w]) + multiset{id}
    requires |k1.queue| <= k1.capacity && (!k1.open ==> k1.queue == [])
    ensures Conserved(Put(s, w, k1).(accepted := s.accepted + [id]))
    ensures AtWorkers(Put(s, w, k1).workers) == AtWorkers(s.workers) + multiset{id}
  {
    var t := Put(s, w, k1).(accepted := s.accepted + [id]);
    PutKeepsWorkersOk(s, w, k1);
    AtWorkersPut(s.workers, w, k1);
    Cancel(AtWorkers(s.workers), AtWorkers(t.workers), AtWorker(s.workers[w]), AtWorker(k1), multiset{id});
    FreshOnce(s, id);
    assert AtWorkers(t.workers) + AnsweredIds(t.answers) == (AtWorkers(s.workers) + AnsweredIds(s.answers)) + multiset{id};
  }

  lemma FreshOnce(s: State, id: int)
    requires Fresh(s, id) && forall x :: multiset(s.accepted)[x] <= 1
    ensures multiset(s.accepted + [id]) == multiset(s.accepted) + multiset{id}
    ensures forall x :: multiset(s.accepted + [id])[x] <= 1
  {
    assert id !in s.accepted;
    assert multiset(s.accepted)[id] == 0;
  }

  lemma SubmitConserves(s: State, w: nat, id: int)
    requires Conserved(s) && w < |s.workers| && Fresh(s, id) && Submit(s, w, id).Ok?
    ensures Conserved(Submit(s, w, id).value) && AtWorkers(Submit(s, w, id).value.workers) == AtWorkers(s.workers) + multiset{id}
  {
    EnqueuedAt(s.workers[w], id);
    AcceptConserves(s, w, Send(s.workers[w], Command(id)).value, id);
  }

  lemma PutKeepsWorkersOk(s: State, w: nat, k1: Worker)
    requires WorkersOk(s.workers) && w < |s.workers| && |k1.queue| <= k1.capacity && (!k1.open ==> k1.queue == [])
    ensures WorkersOk(Put(s, w, k1).workers)
  {}

  /** A command moves from a queue to its worker, or from its worker to the answers. */
  lemma MoveConserves(s: State, w: nat, k1: Worker, given: seq<Answer>)
    requires Conserved(s) && w < |s.workers| && AtWorker(k1) + AnsweredIds(given) == AtWorker(s.workers[w])
    requires |k1.queue| <= k1.capacity && (!k1.open ==> k1.queue == [])
    ensures Conserved(Put(s, w, k1).(answers := s.answers + given))
    ensures AtWorkers(Put(s, w, k1).workers) <= AtWorkers(s.workers)
  {
    var t := Put(s, w, k1).(answers := s.answers + given);
    PutKeepsWorkersOk(s, w, k1);
    AtWorkersPut(s.workers, w, k1);
    AnsweredAppend(s.answers, given);
    Cancel(AtWorkers(t.workers), AtWorkers(s.workers), AtWorker(k1), AtWorker(s.workers[w]), AnsweredIds(given));
    assert AtWorkers(t.workers) + (AnsweredIds(s.answers) + AnsweredIds(given))
        == (AtWorkers(t.workers) + AnsweredIds(given)) + AnsweredIds(s.answers);
  }

  lemma ReceivedAt(k: Worker, id: int)
    requires k.queue != [] && k.queue[0] == Command(id) && k.busy.None?
    ensures AtWorker(k.(queue := k.queue[1..], busy := Some(id))) + AnsweredIds([]) == AtWorker(k)
  {}

  lemma StoppedAt(k: Worker)
    requires k.queue != [] && k.queue[0] == Shutdown && k.busy.None?
    ensures AtWorker(k.(queue := [], open := false)) + AnsweredIds(DroppedAnswers(k.queue[1..])) == AtWorker(k)
  {
    DroppedAreQueued(k.queue[1..]);
  }

  lemma FinishedAt(k: Worker)
    requires k.busy.Some?
    ensures AtWorker(k.(busy := None)) + AnsweredIds([Answered(k.busy.value)]) == AtWorker(k)
  {
    OneAnswer(Answered(k.busy.value));
  }

  lemma NoAnswers(s: State, t: State)
    requires t.answers == s.answers + []
    ensures t.answers == s.answers
  {}

  lemma TurnConserves(s: State, w: nat)
    requires Conserved(s) && w < |s.workers|
    ensures Conserved(Turn(s, w)) && AtWorkers(Turn(s, w).workers) <= AtWorkers(s.workers)
  {
    var k := s.workers[w];
    if k.busy.Some? {
      FinishedAt(k);
      MoveConserves(s, w, k.(busy := None), [Answered(k.busy.value)]);
    } else if k.open && k.queue != [] && k.queue[0].Command? {
      var k1 := k.(queue := k.queue[1..], busy := Some(k.queue[0].id));
      ReceivedAt(k, k.queue[0].id);
      MoveConserves(s, w, k1, []);
      NoAnswers(s, Put(s, w, k1).(answers := s.answers + []));
    } else if k.open && k.queue != [] {
      StoppedAt(k);
      MoveConserves(s, w, k.(queue := [], open := false), DroppedAnswers(k.queue[1..]));
    }
  }

  lemma ShutdownConserves(s: State, w: nat)
    requires Conserved(s) && w < |s.workers|
    ensures Conserved(SendShutdown(s, w)) && AtWorkers(SendShutdown(s, w).workers) <= AtWorkers(s.workers)
  {
    var k := s.workers[w];
    if Send(k, Shutdown).Ok? {
      QueuedAppend(k.queue, Shutdown);
      MoveConserves(s, w, Send(k, Shutdown).value, []);
      assert s.answers + [] == s.answers;
    }
  }

  /// Permits

  lemma FewerAtWorkers(s: State, t: State)
    requires PermitsOk(s) && AtWorkers(t.workers) <= AtWorkers(s.workers)
    requires t.vector == s.vector && t.accepted == s.accepted && t.permits == s.permits
    requires t.requests == s.requests && t.abandoned == s.abandoned
    ensures PermitsOk(t)
  {
    forall id
      ensures IsOwned(t, id)
    {
      assert IsOwned(s, id);
    }
  }

  lemma OneMoreAccepted(s: State, t: State, id: int)
    requires PermitsOk(s) && Fresh(s, id) && t.accepted == s.accepted + [id] && AtWorkers(t.workers) == AtWorkers(s.workers) + multiset{id}
    requires t.permits == s.permits && t.abandoned == s.abandoned && Available(t) >= 0
    requires (t.vector == s.vector && t.requests == s.requests) || (t.vector == s.vector + {id} && t.requests == s.requests[id := Waiting])
    ensures PermitsOk(t)
  {
    assert multiset(t.accepted) == multiset(s.accepted) + multiset{id};
    assert id !in s.accepted;
    forall x
      ensures IsOwned(t, x)
    {
      assert IsOwned(s, x);
    }
  }

  lemma {:induction false} AnsweredIsCounted(answers: seq<Answer>, i: nat)
    requires i < |answers|
    ensures answers[i].id in AnsweredIds(answers)
  {
    if i > 0 {
      AnsweredIsCounted(answers[1..], i - 1);
    }
  }

  lemma AnsweredIsNotAtWorkers(s: State, id: int)
    requires Conserved(s) && IsAnswered(s, id)
    ensures !Unanswered(s, id)
  {
    var i :| 0 <= i < |s.answers| && s.answers[i].id == id;
    AnsweredIsCounted(s.answers, i);
    assert (AtWorkers(s.workers) + AnsweredIds(s.answers))[id] <= 1;
  }

  /** A timeout changes who waits, not who owns the permit. */
  lemma TimeOutKeepsPermits(s: State, id: int)
    requires PermitsOk(s) && id in s.requests
    ensures PermitsOk(TimeOut(s, id)) && Available(TimeOut(s, id)) == Available(s)
  {
    var t := TimeOut(s, id);
    assert t.requests.Keys == s.requests.Keys;
    assert |t.requests| == |t.requests.Keys| == |s.requests.Keys| == |s.requests|;
    forall x
      ensures IsOwned(t, x)
    {
      assert IsOwned(s, x);
    }
  }

  /** The end of a request gives back one permit. */
  lemma EndFreesOne(s: State, id: int)
    requires id in s.requests
    ensures Available(End(s, id)) == Available(s) + 1
  {
    var t := End(s, id);
    assert t.requests.Keys == s.requests.Keys - {id};
    assert |t.requests| == |t.requests.Keys| && |s.requests| == |s.requests.Keys|;
  }

  /** Ending a request is safe when its command was answered or the request counts as abandoned. */
  lemma EndKeepsPermits(s: State, t: State, id: int)
    requires PermitsOk(s) && id in s.requests
    requires (t == End(s, id) && !Unanswered(s, id)) || t == End(s, id).(abandoned := s.abandoned + {id})
    ensures PermitsOk(t)
  {
    EndFreesOne(s, id);
    forall x
      ensures IsOwned(t, x)
    {
      assert IsOwned(s, x);
    }
  }

  /// Every step, every run

  lemma VectorKeepsInv(s: State, w: nat, id: int)
    requires Inv(s) && w < |s.workers| && Fresh(s, id) && SubmitVector(s, w, id).Ok?
    ensures Inv(SubmitVector(s, w, id).value)
  {
    SubmitConserves(s, w, id);
    var t := SubmitVector(s, w, id).value;
    assert t.requests.Keys == s.requests.Keys + {id};
    assert |t.requests| == |t.requests.Keys| && |s.requests| == |s.requests.Keys|;
    OneMoreAccepted(s, t, id);
  }

  lemma SubmitKeepsInv(s: State, w: nat, id: int)
    requires Inv(s) && w < |s.workers| && Fresh(s, id) && Submit(s, w, id).Ok?
    ensures Inv(Submit(s, w, id).value)
  {
    SubmitConserves(s, w, id);
    OneMoreAccepted(s, Submit(s, w, id).value, id);
  }

  /** A turn changes one worker and the answers. */
  ghost predicate OnlyWorker(s: State, t: State, w: nat) {
    && t == s.(workers := t.workers, answers := t.answers)
    && |t.workers| == |s.workers| && forall v :: 0 <= v < |s.workers| && v != w ==> t.workers[v] == s.workers[v]
  }

  lemma TurnChangesOne(s: State, w: nat)
    requires w < |s.workers|
    ensures OnlyWorker(s, Turn(s, w), w)
  {}

  lemma OnlyWorkerKeepsPermits(s: State, t: State, w: nat)
    requires PermitsOk(s) && OnlyWorker(s, t, w) && AtWorkers(t.workers) <= AtWorkers(s.workers)
    ensures PermitsOk(t)
  {
    FewerAtWorkers(s, t);
  }

  lemma TurnKeepsInv(s: State, w: nat)
    requires Inv(s) && w < |s.workers|
    ensures Inv(Turn(s, w))
  {
    var t := Turn(s, w);
    TurnConserves(s, w);
    TurnChangesOne(s, w);
    OnlyWorkerKeepsPermits(s, t, w);
  }

  lemma ShutdownKeepsInv(s: State, w: nat)
    requires Inv(s) && w < |s.workers|
    ensures Inv(SendShutdown(s, w))
  {
    ShutdownConserves(s, w);
    assert SendShutdown(s, w) == s.(workers := SendShutdown(s, w).workers);
    FewerAtWorkers(s, SendShutdown(s, w));
  }

  lemma TakeKeepsInv(s: State, step: Step)
    requires Inv(s) && Enabled(s, step)
    ensures Inv(Take(s, step))
  {
    match step
    case Submits(w, id) => if Submit(s, w, id).Ok? { SubmitKeepsInv(s, w, id); }
    case SubmitsVector(w, id) => if SubmitVector(s, w, id).Ok? { VectorKeepsInv(s, w, id); }
    case Turns(w) => TurnKeepsInv(s, w);
    case TimesOut(id) => TimeOutKeepsPermits(s, id);
    case Completes(id) => { AnsweredIsNotAtWorkers(s, id); EndKeepsPermits(s, Take(s, step), id); }
    case Abandons(id) => EndKeepsPermits(s, Take(s, step), id);
    case ShutsDown(w) => ShutdownKeepsInv(s, w);
  }

  lemma {:induction false} AfterKeepsInv(s: State, steps: seq<Step>)
    requires Inv(s) && Runs(s, steps)
    ensures Inv(After(s, steps))
    decreases |steps|
  {
    if steps != [] {
      TakeKeepsInv(s, steps[0]);
      AfterKeepsInv(Take(s, steps[0]), steps[1..]);
    }
  }

  /** Nothing is queued, running or promised yet. */
  ghost predicate Initial(s: State) {
    && (forall w :: 0 <= w < |s.workers| ==> s.workers[w].queue == [] && s.workers[w].busy == None)
    && s.accepted == [] && s.vector == {} && s.answers == []
    && s.requests == map[] && s.abandoned == {}
  }

  lemma {:induction false} IdleHaveNothing(ks: seq<Worker>)
    requires forall w :: 0 <= w < |ks| ==> ks[w].queue == [] && ks[w].busy == None
    ensures AtWorkers(ks) == multiset{}
  {
    if ks != [] {
      IdleHaveNothing(ks[1..]);
    }
  }

  lemma InitialIsOk(s: State)
    requires Initial(s)
    ensures Inv(s)
  {
    IdleHaveNothing(s.workers);
    assert multiset(s.accepted) == multiset{};
  }

  /** In every run: no command is answered twice, an accepted one is unanswered exactly while it is in a
      queue or at a worker, and no queue is over its capacity. */
  lemma AtMostOneAnswer(s: State, steps: seq<Step>, id: int)
    requires Initial(s) && Runs(s, steps)
    ensures var t := After(s, steps);
            && AnsweredIds(t.answers)[id] + AtWorkers(t.workers)[id] == (if id in t.accepted then 1 else 0)
            && forall w :: 0 <= w < |t.workers| ==> |t.workers[w].queue| <= t.workers[w].capacity
  {
    InitialIsOk(s);
    AfterKeepsInv(s, steps);
    var t := After(s, steps);
    assert (AtWorkers(t.workers) + AnsweredIds(t.answers))[id] == multiset(t.accepted)[id];
    assert id in t.accepted <==> id in multiset(t.accepted);
  }

  /// What an answer says

  /** Some worker is working on the command. */
  ghost predicate Busy(s: State, id: int) { exists w :: 0 <= w < |s.workers| && s.workers[w].busy == Some(id) }

  /** The command is being worked on at some point of the run. */
  ghost predicate WorkedOn(s: State, steps: seq<Step>, id: int)
    requires Runs(s, steps)
    decreases |steps|
  {
    Busy(s, id) || (steps != [] && WorkedOn(Take(s, steps[0]), steps[1..], id))
  }

  ghost predicate Begun(s: State, id: int) { Busy(s, id) || Answered(id) in s.answers }

  lemma {:induction false} BusyIsAtWorkers(ks: seq<Worker>, w: nat, id: int)
    requires w < |ks| && ks[w].busy == Some(id)
    ensures id in AtWorkers(ks)
  {
    if w > 0 {
      BusyIsAtWorkers(ks[1..], w - 1, id);
    }
  }

  lemma {:induction false} AnsweredTwice(answers: seq<Answer>, id: int)
    requires Answered(id) in answers && Stopped(id) in answers
    ensures AnsweredIds(answers)[id] >= 2
  {
    if answers[0] == Answered(id) {
      LaterAnswer(answers, Stopped(id));
    } else if answers[0] == Stopped(id) {
      LaterAnswer(answers, Answered(id));
    } else {
      AnsweredTwice(answers[1..], id);
    }
  }

  lemma LaterAnswer(answers: seq<Answer>, a: Answer)
    requires a in answers && answers[0] != a
    ensures AnsweredIds(answers[1..])[a.id] >= 1
  {
    var i :| 0 <= i < |answers| && answers[i] == a;
    AnsweredIsCounted(answers[1..], i - 1);
  }

  /** A command that was begun is never told that its worker stopped. */
  lemma BegunIsNotStopped(s: State, id: int)
    requires Conserved(s) && Begun(s, id)
    ensures Stopped(id) !in s.answers
  {
    assert (AtWorkers(s.workers) + AnsweredIds(s.answers))[id] <= 1;
    if Stopped(id) in s.answers {
      if Busy(s, id) {
        var w :| 0 <= w < |s.workers| && s.workers[w].busy == Some(id);
        BusyIsAtWorkers(s.workers, w, id);
        var i :| 0 <= i < |s.answers| && s.answers[i] == Stopped(id);
        AnsweredIsCounted(s.answers, i);
        assert false;
      } else {
        AnsweredTwice(s.answers, id);
      }
    }
  }

  lemma {:induction false} DroppedAreStopped(queue: seq<Message>)
    ensures forall a <- DroppedAnswers(queue) :: a.Stopped?
  {
    if queue != [] {
      DroppedAreStopped(queue[1..]);
    }
  }

  lemma BeginningLasts(s: State, step: Step, id: int)
    requires Enabled(s, step) && Begun(s, id)
    ensures Begun(Take(s, step), id)
  {
    var t := Take(s, step);
    if Busy(s, id) {
      var w :| 0 <= w < |s.workers| && s.workers[w].busy == Some(id);
      if step == Turns(w) {
        assert t.answers[|s.answers|] == Answered(id);
      } else {
        assert t.workers[w].busy == Some(id);
      }
    }
  }

  lemma {:induction false} BegunStaysBegun(s: State, steps: seq<Step>, id: int)
    requires Runs(s, steps) && Begun(s, id)
    ensures Begun(After(s, steps), id)
    decreases |steps|
  {
    if steps != [] {
      BeginningLasts(s, steps[0], id);
      BegunStaysBegun(Take(s, steps[0]), steps[1..], id);
    }
  }

  lemma {:induction false} WorkedOnIsBegun(s: State, steps: seq<Step>, id: int)
    requires Runs(s, steps) && WorkedOn(s, steps, id)
    ensures Begun(After(s, steps), id)
    decreases |steps|
  {
    if Busy(s, id) {
      BegunStaysBegun(s, steps, id);
    } else {
      WorkedOnIsBegun(Take(s, steps[0]), steps[1..], id);
    }
  }

  lemma NewAnswerIsOfBusy(s: State, step: Step, id: int)
    requires Enabled(s, step) && Answered(id) in Take(s, step).answers && Answered(id) !in s.answers
    ensures Busy(s, id)
  {
    if step.Turns? {
      DroppedAreStopped(if s.workers[step.w].queue == [] then [] else s.workers[step.w].queue[1..]);
    }
  }

  lemma {:induction false} AnsweredWasWorkedOn(s: State, steps: seq<Step>, id: int)
    requires Runs(s, steps) && Answered(id) in After(s, steps).answers && Answered(id) !in s.answers
    ensures WorkedOn(s, steps, id)
    decreases |steps|
  {
    if Answered(id) in Take(s, steps[0]).answers {
      NewAnswerIsOfBusy(s, steps[0], id);
    } else {
      AnsweredWasWorkedOn(Take(s, steps[0]), steps[1..], id);
    }
  }

  /** In every run a caller is told of a result exactly if a worker worked on the command and finished, and that
      the worker stopped only if none ever began. */
  lemma AnswersTellTheFate(s: State, steps: seq<Step>, id: int)
    requires Initial(s) && Runs(s, steps)
    ensures var t := After(s, steps);
            && (Answered(id) in t.answers <==> WorkedOn(s, steps, id) && !Busy(t, id))
            && (Stopped(id) in t.answers ==> !WorkedOn(s, steps, id))
  {
    InitialIsOk(s);
    AfterKeepsInv(s, steps);
    var t := After(s, steps);
    if WorkedOn(s, steps, id) {
      WorkedOnIsBegun(s, steps, id);
      BegunIsNotStopped(t, id);
    }
    if Answered(id) in t.answers {
      AnsweredWasWorkedOn(s, steps, id);
      FinishedIsNotBusy(t, id);
    }
  }

  lemma FinishedIsNotBusy(s: State, id: int)
    requires Conserved(s) && Answered(id) in s.answers
    ensures !Busy(s, id)
  {
    var i :| 0 <= i < |s.answers| && s.answers[i] == Answered(id);
    AnsweredIsNotAtWorkers(s, id);
    forall w | 0 <= w < |s.workers|
      ensures s.workers[w].busy != Some(id)
    {
      if s.workers[w].busy == Some(id) {
        BusyIsAtWorkers(s.workers, w, id);
      }
    }
  }

  /** One command stands before another in a queue. */
  ghost predicate Ahead(queue: seq<Message>, a: int, b: int) {
    exists i, j :: 0 <= i < j < |queue| && queue[i] == Command(a) && queue[j] == Command(b)
  }

  lemma {:induction false} WaitingCounts(queue: seq<Message>, i: nat, a: int)
    requires i < |queue| && queue[i] == Command(a)
    ensures Queued(queue)[a] >= 1
    ensures Command(a) in queue[..i] ==> Queued(queue)[a] >= 2
  {
    if i > 0 {
      WaitingCounts(queue[1..], i - 1, a);
      assert queue[..i] == [queue[0]] + queue[1..][..i - 1];
    }
  }

  lemma {:induction false} WaitingIsAtWorkers(ks: seq<Worker>, w: nat, a: int)
    requires w < |ks|
    ensures Queued(ks[w].queue)[a] <= AtWorkers(ks)[a]
    ensures ks[w].busy == Some(a) ==> Queued(ks[w].queue)[a] + 1 <= AtWorkers(ks)[a]
  {
    if w > 0 {
      WaitingIsAtWorkers(ks[1..], w - 1, a);
    }
  }

  lemma {:induction false} WaitsAndWorks(ks: seq<Worker>, w: nat, v: nat, a: int)
    requires w < |ks| && v < |ks| && ks[v].busy == Some(a)
    ensures Queued(ks[w].queue)[a] + 1 <= AtWorkers(ks)[a]
  {
    if w == v {
      WaitingIsAtWorkers(ks, w, a);
    } else if w == 0 {
      BusyIsAtWorkers(ks[1..], v - 1, a);
    } else if v == 0 {
      WaitingIsAtWorkers(ks[1..], w - 1, a);
    } else {
      WaitsAndWorks(ks[1..], w - 1, v - 1, a);
    }
  }

  lemma AcceptedOnce(s: State, id: int)
    requires Conserved(s)
    ensures AtWorkers(s.workers)[id] + AnsweredIds(s.answers)[id] <= 1
    ensures AtWorkers(s.workers)[id] >= 1 ==> !Fresh(s, id)
  {
    assert (AtWorkers(s.workers) + AnsweredIds(s.answers))[id] == multiset(s.accepted)[id];
    if AtWorkers(s.workers)[id] >= 1 {
      assert id in multiset(s.accepted);
      var i :| 0 <= i < |s.accepted| && s.accepted[i] == id;
    }
  }

  lemma WaitingIsNotBegun(s: State, w: nat, a: int)
    requires Conserved(s) && w < |s.workers| && Command(a) in s.workers[w].queue
    ensures !Begun(s, a) && !Fresh(s, a)
  {
    var i :| 0 <= i < |s.workers[w].queue| && s.workers[w].queue[i] == Command(a);
    WaitingCounts(s.workers[w].queue, i, a);
    WaitingIsAtWorkers(s.workers, w, a);
    AcceptedOnce(s, a);
    forall v | 0 <= v < |s.workers|
      ensures s.workers[v].busy != Some(a)
    {
      if s.workers[v].busy == Some(a) {
        WaitsAndWorks(s.workers, w, v, a);
      }
    }
    forall k | 0 <= k < |s.answers|
      ensures s.answers[k].id != a
    {
      AnsweredIsCounted(s.answers, k);
    }
  }

  lemma WaitsInOnePlace(s: State, w: nat, i: nat, j: nat, a: int)
    requires Conserved(s) && w < |s.workers| && i < j < |s.workers[w].queue|
    ensures !(s.workers[w].queue[i] == Command(a) && s.workers[w].queue[j] == Command(a))
  {
    var queue := s.workers[w].queue;
    if queue[i] == Command(a) && queue[j] == Command(a) {
      assert queue[..j][i] == Command(a);
      WaitingCounts(queue, j, a);
      WaitingIsAtWorkers(s.workers, w, a);
      AcceptedOnce(s, a);
      assert false;
    }
  }

  /** A queue grows at its end, loses its first message, or is dropped whole. */
  ghost predicate QueueMoves(queue: seq<Message>, after: seq<Message>) {
    || after == [] || (queue != [] && after == queue[1..]) || queue <= after
  }

  lemma StepMovesQueue(s: State, step: Step, w: nat)
    requires Enabled(s, step) && w < |s.workers|
    ensures w < |Take(s, step).workers| && QueueMoves(s.workers[w].queue, Take(s, step).workers[w].queue)
  {}

  /** A command that leaves its queue leaves it before those behind it. */
  lemma OrderStays(s: State, step: Step, w: nat, a: int, b: int)
    requires Inv(s) && Enabled(s, step) && w < |s.workers| && Ahead(s.workers[w].queue, a, b)
    ensures var t := Take(s, step);
            w < |t.workers| && (Ahead(t.workers[w].queue, a, b) || (Command(a) !in t.workers[w].queue && !Fresh(t, a)))
  {
    var queue := s.workers[w].queue;
    assert Command(a) in queue;
    WaitingIsNotBegun(s, w, a);
    StaysAccepted(s, step, a);
    StepMovesQueue(s, step, w);
    MovedQueue(s, w, Take(s, step).workers[w].queue, a, b);
  }

  lemma MovedQueue(s: State, w: nat, after: seq<Message>, a: int, b: int)
    requires Conserved(s) && w < |s.workers| && Ahead(s.workers[w].queue, a, b) && QueueMoves(s.workers[w].queue, after)
    ensures Ahead(after, a, b) || Command(a) !in after
  {
    var queue := s.workers[w].queue;
    var i, j :| 0 <= i < j < |queue| && queue[i] == Command(a) && queue[j] == Command(b);
    if queue <= after {
      assert after[i] == Command(a) && after[j] == Command(b);
    } else if after != [] && i > 0 {
      assert after[i - 1] == Command(a) && after[j - 1] == Command(b);
    } else if after != [] {
      forall n | 0 <= n < |after|
        ensures after[n] != Command(a)
      {
        WaitsInOnePlace(s, w, 0, n + 1, a);
      }
    }
  }

  lemma StaysAccepted(s: State, step: Step, a: int)
    requires Enabled(s, step) && !Fresh(s, a)
    ensures !Fresh(Take(s, step), a)
  {
    var i :| 0 <= i < |s.accepted| && s.accepted[i] == a;
    assert Take(s, step).accepted[i] == a;
  }

  lemma {:induction false} LeftStaysAway(s: State, steps: seq<Step>, w: nat, a: int)
    requires Runs(s, steps) && w < |s.workers| && Command(a) !in s.workers[w].queue && !Fresh(s, a)
    ensures w < |After(s, steps).workers| && Command(a) !in After(s, steps).workers[w].queue
    decreases |steps|
  {
    if steps != [] {
      StaysAccepted(s, steps[0], a);
      LeftStaysAway(Take(s, steps[0]), steps[1..], w, a);
    }
  }

  /** Queues are worked off in order: while a command is waiting, none behind it in its queue is begun. */
  lemma {:induction false} FirstInFirstOut(s: State, steps: seq<Step>, w: nat, a: int, b: int)
    requires Inv(s) && Runs(s, steps) && w < |s.workers| && Ahead(s.workers[w].queue, a, b)
    ensures var t := After(s, steps);
            w < |t.workers| && (Command(a) in t.workers[w].queue ==> Ahead(t.workers[w].queue, a, b) && !Begun(t, b))
    decreases |steps|
  {
    if steps == [] {
      WaitingIsNotBegun(s, w, b);
    } else {
      var next := Take(s, steps[0]);
      TakeKeepsInv(s, steps[0]);
      OrderStays(s, steps[0], w, a, b);
      if Ahead(next.workers[w].queue, a, b) {
        FirstInFirstOut(next, steps[1..], w, a, b);
      } else {
        LeftStaysAway(next, steps[1..], w, a);
      }
    }
  }

  function UnansweredVector(s: State): (r: set<int>)
    ensures forall id :: id in r <==> id in s.vector && id in AtWorkers(s.workers)
  {
    set id | id in s.vector && id in AtWorkers(s.workers) :: id
  }

  lemma SubsetIsSmaller(a: set<int>, b: set<int>)
    requires a <= b
    ensures |a| <= |b|
  {
    if a != {} {
      var rest := b - a;
      assert b == a + rest;
    }
  }

  /** How many requests were dropped while they waited. */
  function Abandonments(steps: seq<Step>): nat {
    if steps == [] then 0 else (if steps[0].Abandons? then 1 else 0) + Abandonments(steps[1..])
  }

  lemma {:induction false} AbandonedAreCounted(s: State, steps: seq<Step>)
    requires Runs(s, steps)
    ensures After(s, steps).permits == s.permits && |After(s, steps).abandoned| <= |s.abandoned| + Abandonments(steps)
    decreases |steps|
  {
    if steps != [] {
      AbandonedAreCounted(Take(s, steps[0]), steps[1..]);
    }
  }

  lemma UnionIsSmall(a: set<int>, b: set<int>, c: set<int>)
    requires forall id :: id in c ==> (id in a || id in b)
    ensures |c| <= |a| + |b|
  {
    forall id | id in c
      ensures id in a + b
    {
      assert id in a || id in b;
    }
    SubsetIsSmaller(c, a + b);
    assert |a + b| == |a| + |b| - |a * b|;
  }

  /** However many requests time out, the vector commands still unanswered outnumber the permits by no more
      than the requests whose handler was dropped while it waited. */
  lemma UnansweredVectorsAreBounded(s: State, steps: seq<Step>)
    requires Initial(s) && Runs(s, steps)
    ensures |UnansweredVector(After(s, steps))| <= s.permits + Abandonments(steps)
  {
    InitialIsOk(s);
    AfterKeepsInv(s, steps);
    AbandonedAreCounted(s, steps);
    var t := After(s, steps);
    forall id | id in UnansweredVector(t)
      ensures id in t.requests.Keys || id in t.abandoned
    {
      assert IsOwned(t, id);
    }
    UnionIsSmall(t.requests.Keys, t.abandoned, UnansweredVector(t));
    assert |t.requests| == |t.requests.Keys|;
  }

  /// The bound is reached

  /** One worker that never gets a turn, `n` vector commands in its queue, the first `k` abandoned. */
  ghost predicate IsFlooded(s: State, permits: nat, capacity: nat, n: nat, k: nat) {
    && s.permits == permits && |s.workers| == 1 && s.workers[0].capacity == capacity && s.workers[0].open
    && |s.workers[0].queue| == n && |s.accepted| == n
    && (forall i :: 0 <= i < n ==> s.workers[0].queue[i] == Command(i) && s.accepted[i] == i)
    && (forall id :: id in s.vector <==> 0 <= id < n)
    && (forall id :: id in s.requests <==> k <= id < n)
    && (forall id :: id in s.requests ==> s.requests[id] == Waiting)
    && |s.requests| == n - k
  }

  lemma OneMoreSubmitted(s: State, permits: nat, capacity: nat, n: nat, k: nat)
    requires k <= n < capacity && n - k < permits && IsFlooded(s, permits, capacity, n, k)
    ensures Enabled(s, SubmitsVector(0, n)) && IsFlooded(Take(s, SubmitsVector(0, n)), permits, capacity, n + 1, k)
  {
    var t := Take(s, SubmitsVector(0, n));
    assert t.requests.Keys == s.requests.Keys + {n};
    assert |t.requests| == |t.requests.Keys| && |s.requests| == |s.requests.Keys|;
  }

  lemma OneMoreAbandoned(s: State, permits: nat, capacity: nat, n: nat, k: nat)
    requires k < n && IsFlooded(s, permits, capacity, n, k)
    ensures Enabled(s, Abandons(k)) && IsFlooded(Take(s, Abandons(k)), permits, capacity, n, k + 1)
  {
    EndFreesOne(s, k);
  }

  lemma {:induction false} OneMoreStep(s: State, steps: seq<Step>, step: Step)
    requires Runs(s, steps) && Enabled(After(s, steps), step)
    ensures Runs(s, steps + [step]) && After(s, steps + [step]) == Take(After(s, steps), step)
    ensures Abandonments(steps + [step]) == Abandonments(steps) + if step.Abandons? then 1 else 0
    decreases |steps|
  {
    if steps == [] {
      assert steps + [step] == [step];
    } else {
      assert (steps + [step])[1..] == steps[1..] + [step];
      OneMoreStep(Take(s, steps[0]), steps[1..], step);
    }
  }

  /** Some run has `n` commands queued and `k` of them abandoned. */
  ghost predicate Floods(s: State, steps: seq<Step>, capacity: nat, n: nat, k: nat) {
    Runs(s, steps) && IsFlooded(After(s, steps), s.permits, capacity, n, k) && Abandonments(steps) == k
  }

  lemma ThenSubmits(s: State, steps: seq<Step>, capacity: nat, n: nat, k: nat)
    requires k <= n < capacity && n - k < s.permits && Floods(s, steps, capacity, n, k)
    ensures Floods(s, steps + [SubmitsVector(0, n)], capacity, n + 1, k)
  {
    OneMoreSubmitted(After(s, steps), s.permits, capacity, n, k);
    OneMoreStep(s, steps, SubmitsVector(0, n));
  }

  lemma ThenAbandons(s: State, steps: seq<Step>, capacity: nat, n: nat, k: nat)
    requires k < n && Floods(s, steps, capacity, n, k)
    ensures Floods(s, steps + [Abandons(k)], capacity, n, k + 1)
  {
    OneMoreAbandoned(After(s, steps), s.permits, capacity, n, k);
    OneMoreStep(s, steps, Abandons(k));
  }

  lemma ThenSwaps(s: State, steps: seq<Step>, capacity: nat, n: nat, k: nat)
    requires k < n < capacity && n - k <= s.permits && Floods(s, steps, capacity, n, k)
    ensures Floods(s, (steps + [Abandons(k)]) + [SubmitsVector(0, n)], capacity, n + 1, k + 1)
  {
    ThenAbandons(s, steps, capacity, n, k);
    ThenSubmits(s, steps + [Abandons(k)], capacity, n, k + 1);
  }

  /** The first `n` submissions take a permit each; every later one comes after an abandonment. */
  lemma {:induction false} Flood(s: State, capacity: nat, n: nat, k: nat) returns (steps: seq<Step>)
    requires s.permits > 0 && n <= capacity && k == (if n <= s.permits then 0 else n - s.permits)
    requires IsFlooded(s, s.permits, capacity, 0, 0)
    ensures Floods(s, steps, capacity, n, k)
    decreases n
  {
    if n == 0 {
      steps := [];
    } else if n <= s.permits {
      var before := Flood(s, capacity, n - 1, 0);
      ThenSubmits(s, before, capacity, n - 1, 0);
      steps := before + [SubmitsVector(0, n - 1)];
    } else {
      var before := Flood(s, capacity, n - 1, k - 1);
      ThenSwaps(s, before, capacity, n - 1, k - 1);
      steps := (before + [Abandons(k - 1)]) + [SubmitsVector(0, n - 1)];
    }
  }

  lemma {:induction false} QueuedAt(queue: seq<Message>, i: nat)
    requires i < |queue| && queue[i].Command?
    ensures queue[i].id in Queued(queue)
  {
    if i > 0 {
      QueuedAt(queue[1..], i - 1);
    }
  }

  function Below(n: nat): (r: set<int>)
    ensures forall id :: id in r <==> 0 <= id < n
    ensures |r| == n
  {
    if n == 0 then {} else Below(n - 1) + {n - 1}
  }

  lemma FloodedIsUnanswered(s: State, permits: nat, capacity: nat, n: nat, k: nat)
    requires IsFlooded(s, permits, capacity, n, k)
    ensures |UnansweredVector(s)| == n
  {
    assert AtWorkers(s.workers) == AtWorker(s.workers[0]) + AtWorkers(s.workers[1..]);
    forall id | id in s.vector
      ensures id in UnansweredVector(s)
    {
      QueuedAt(s.workers[0].queue, id);
      assert s.workers[0].queue[id] == Command(id);
    }
    assert UnansweredVector(s) == Below(n);
  }

  /** With permits released before the answer the permits bound nothing: whatever their number, `extra` such
      releases put `extra` more vector commands than permits into the queue, as far as the queue has room. */
  lemma EarlyReleaseBreaksTheBound(permits: nat, capacity: nat, extra: nat) returns (s: State, steps: seq<Step>)
    requires permits > 0 && permits + extra <= capacity
    ensures Initial(s) && s.permits == permits && Runs(s, steps) && Abandonments(steps) == extra
    ensures |UnansweredVector(After(s, steps))| == permits + extra
  {
    s := State([Worker(capacity, [], None, true)], [], {}, [], permits, map[], {});
    steps := Flood(s, capacity, permits + extra, extra);
    FloodedIsUnanswered(After(s, steps), permits, capacity, permits + extra, extra);
  }

  /// Progress

  /** Turns a worker needs to answer everything it has. */
  function Load(k: Worker): nat { 2 * |k.queue| + (if k.busy.Some? then 1 else 0) }

  /** A worker that keeps running, for as many turns as it has work. */
  function Drain(s: State, w: nat): State
    requires w < |s.workers|
    decreases if w < |s.workers| then Load(s.workers[w]) else 0
  {
    if Load(s.workers[w]) == 0 || Load(Turn(s, w).workers[w]) >= Load(s.workers[w]) then s else Drain(Turn(s, w), w)
  }

  lemma TurnLightens(s: State, w: nat)
    requires Conserved(s) && w < |s.workers| && Load(s.workers[w]) > 0
    ensures Load(Turn(s, w).workers[w]) < Load(s.workers[w])
  {}

  ghost predicate Idle(k: Worker) { k.queue == [] && k.busy == None }

  lemma OnlyWorkerTrans(s: State, t: State, u: State, w: nat)
    requires OnlyWorker(s, t, w) && OnlyWorker(t, u, w)
    ensures OnlyWorker(s, u, w)
  {}

  /** A worker left to itself answers all it has, and touches no other. */
  lemma {:induction false} DrainEmpties(s: State, w: nat)
    requires Inv(s) && w < |s.workers|
    ensures var t := Drain(s, w); Inv(t) && OnlyWorker(s, t, w) && Idle(t.workers[w])
    decreases Load(s.workers[w])
  {
    if Load(s.workers[w]) > 0 {
      var next := Turn(s, w);
      TurnLightens(s, w);
      TurnKeepsInv(s, w);
      TurnChangesOne(s, w);
      DrainEmpties(next, w);
      OnlyWorkerTrans(s, next, Drain(next, w), w);
    }
  }

  function DrainAll(s: State, w: nat): State
    decreases |s.workers| - w
  {
    if w >= |s.workers| then s
    else
      var t := Drain(s, w);
      if |t.workers| != |s.workers| then t else DrainAll(t, w + 1)
  }

  lemma {:induction false} DrainAllEmpties(s: State, w: nat)
    requires Inv(s) && w <= |s.workers| && forall v :: 0 <= v < w ==> Idle(s.workers[v])
    ensures var t := DrainAll(s, w); Inv(t) && t.accepted == s.accepted && forall v :: 0 <= v < |t.workers| ==> Idle(t.workers[v])
    decreases |s.workers| - w
  {
    if w < |s.workers| {
      DrainEmpties(s, w);
      DrainAllEmpties(Drain(s, w), w + 1);
    }
  }

  /** From any state of any run, once every worker has had its turns each accepted command has exactly one
      answer. */
  lemma EveryCommandIsAnswered(s: State, steps: seq<Step>, id: int)
    requires Initial(s) && Runs(s, steps)
    ensures var t := DrainAll(After(s, steps), 0);
            t.accepted == After(s, steps).accepted && AnsweredIds(t.answers)[id] == if id in t.accepted then 1 else 0
  {
    InitialIsOk(s);
    AfterKeepsInv(s, steps);
    var t := DrainAll(After(s, steps), 0);
    DrainAllEmpties(After(s, steps), 0);
    IdleHaveNothing(t.workers);
    assert (AtWorkers(t.workers) + AnsweredIds(t.answers))[id] == multiset(t.accepted)[id];
    assert id in t.accepted <==> id in multiset(t.accepted);
  }

  /// Shutdown

  lemma TurnKeepsOpen(s: State, w: nat)
    requires w < |s.workers| && s.workers[w].open && Load(s.workers[w]) > 0
    ensures var k, k1 := s.workers[w], Turn(s, w).workers[w];
            if k1.open then Shutdown in k1.queue <==> Shutdown in k.queue else Shutdown in k.queue && k1.busy.None?
  {
    var k := s.workers[w];
    if k.busy.None? {
      assert k.queue == [k.queue[0]] + k.queue[1..];
    }
  }

  /** A worker that has had all its turns has stopped exactly if a shutdown message was in its queue. */
  lemma {:induction false} DrainedStopsIff(s: State, w: nat)
    requires Inv(s) && w < |s.workers| && s.workers[w].open
    ensures w < |Drain(s, w).workers| && (Drain(s, w).workers[w].open <==> Shutdown !in s.workers[w].queue)
    decreases Load(s.workers[w])
  {
    if Load(s.workers[w]) > 0 {
      var next := Turn(s, w);
      TurnLightens(s, w);
      TurnKeepsInv(s, w);
      TurnChangesOne(s, w);
      TurnKeepsOpen(s, w);
      if next.workers[w].open {
        DrainedStopsIff(next, w);
      } else {
        ClosedStaysClosed(next, w);
      }
    }
  }

  lemma ClosedStaysClosed(s: State, w: nat)
    requires Inv(s) && w < |s.workers| && !s.workers[w].open && s.workers[w].busy.None?
    ensures Drain(s, w) == s
  {}

  /** `shutdown` sends its message once: a worker with a full queue never gets it, and joining it does not end. */
  lemma ShutdownIsLostIffFull(s: State, w: nat)
    requires Inv(s) && w < |s.workers| && s.workers[w].open && Shutdown !in s.workers[w].queue
    ensures var t := Drain(SendShutdown(s, w), w);
            w < |t.workers| && (t.workers[w].open <==> |s.workers[w].queue| == s.workers[w].capacity)
  {
    ShutdownKeepsInv(s, w);
    DrainedStopsIff(SendShutdown(s, w), w);
  }
}
