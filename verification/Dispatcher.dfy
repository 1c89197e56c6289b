/** The coordinator's request dispatcher: a loop that tests and clears a flag and then takes
    one request from a queue that other threads fill, while other threads set the flag. */
module Dispatchers {
  import opened Sequences
  import opened DynamicConnections

  /** One request per host. */
  datatype Request = Request(server_ip: string, coordinator_ip: string, dcs: seq<DynamicConnection>)

  /** A queue whose operations run under a lock. */
  class ConcurrentQueue<T> {
    var the_queue: seq<T>

    constructor ()
      ensures the_queue == []
    {
      the_queue := [];
    }

    method Push(data: T)
      modifies this
      ensures the_queue == old(the_queue) + [data]
    {
      the_queue := the_queue + [data];
    }

    method Empty() returns (empty: bool)
      ensures empty <==> the_queue == []
    {
      empty := |the_queue| == 0;
    }

    method TryPop() returns (popped: Option<T>)
      modifies this
      ensures old(the_queue) == [] ==> popped == None && the_queue == []
      ensures old(the_queue) != [] ==> popped.Some? && old(the_queue) == [popped.value] + the_queue
    {
      if |the_queue| == 0 {
        return None;
      }
      popped := Some(the_queue[0]);
      the_queue := the_queue[1..];
    }

    /** The wait is over when the queue is not empty; before that the caller does not move. */
    method WaitAndPop() returns (popped: T)
      requires the_queue != []
      modifies this
      ensures old(the_queue) == [popped] + the_queue
    {
      popped := the_queue[0];
      the_queue := the_queue[1..];
    }
  }

  // ----- all interleavings -----

  /** Where the dispatcher loop stands: about to test the flag, about to clear it, or waiting
      for a request. Test and clear are separate steps. */
  datatype Position = Testing | Clearing | Waiting

  /** The shared state, and what has happened so far: the requests pushed and dispatched, and
      how often the flag has been set after the start. */
  datatype State = State(ok: bool, at: Position, queue: seq<Request>, pushed: seq<Request>, dispatched: seq<Request>,
                         sets: nat)

  function Initial(): State {
    State(true, Testing, [], [], [], 0)
  }

  datatype Step = Register(request: Request) | SetOk | Test | Clear | Pop

  /** A registration may come and the flag may be set at any moment; the dispatcher moves when it can. */
  predicate Enabled(s: State, step: Step) {
    match step
    case Register(_) => true
    case SetOk => true
    case Test => s.at == Testing
    case Clear => s.at == Clearing
    case Pop => s.at == Waiting && s.queue != []
  }

  function Next(s: State, step: Step): State
    requires Enabled(s, step)
  {
    match step
    case Register(r) => s.(queue := s.queue + [r], pushed := s.pushed + [r])
    case SetOk => s.(ok := true, sets := s.sets + 1)
    case Test => if s.ok then s.(at := Clearing) else s
    case Clear => s.(ok := false, at := Waiting)
    case Pop => s.(queue := s.queue[1..], dispatched := s.dispatched + [s.queue[0]], at := Testing)
  }

  /** A run: every step is enabled where it is taken. */
  ghost predicate Runs(s: State, steps: seq<Step>, t: State)
    decreases steps
  {
    if steps == [] then s == t
    else Enabled(s, steps[0]) && Runs(Next(s, steps[0]), steps[1..], t)
  }

  /** Dispatches that are already paid for: the one in progress, and the one the flag stands for. */
  function Credit(s: State): nat {
    (if s.at != Testing then 1 else 0) + if s.ok && s.at != Clearing then 1 else 0
  }

  lemma {:induction false} RunKeeps(s: State, steps: seq<Step>, t: State)
    requires Runs(s, steps, t) && s.dispatched + s.queue == s.pushed
    ensures t.dispatched + t.queue == t.pushed
    ensures s.pushed <= t.pushed && s.dispatched <= t.dispatched && s.sets <= t.sets
    ensures |t.dispatched| + Credit(t) <= |s.dispatched| + Credit(s) + t.sets - s.sets
    decreases steps
  {
    if steps != [] {
      var u := Next(s, steps[0]);
      if steps[0].Pop? {
        assert u.dispatched + u.queue == s.dispatched + s.queue;
      }
      RunKeeps(u, steps[1..], t);
    }
  }

  /** Main result: in every interleaving the dispatched requests are a prefix of those pushed,
      in order, and there are at most one more than the flag has been set. */
  lemma {:induction false} DispatchedInOrder(steps: seq<Step>, t: State)
    requires Runs(Initial(), steps, t)
    ensures t.dispatched <= t.pushed && t.pushed == t.dispatched + t.queue
    ensures |t.dispatched| <= 1 + t.sets
  {
    RunKeeps(Initial(), steps, t);
  }

  /** From any moment on, a quiet dispatcher only moves again when the flag is set. */
  lemma {:induction false} OnePerSet(s: State, steps: seq<Step>, t: State)
    requires Runs(s, steps, t) && s.dispatched + s.queue == s.pushed && s.at == Testing && !s.ok
    ensures |t.dispatched| - |s.dispatched| <= t.sets - s.sets
  {
    RunKeeps(s, steps, t);
  }

  lemma {:induction false} RunsConcat(s: State, a: seq<Step>, u: State, b: seq<Step>, t: State)
    requires Runs(s, a, u) && Runs(u, b, t)
    ensures Runs(s, a + b, t)
    decreases a
  {
    if a == [] {
      assert a + b == b;
    } else {
      assert (a + b)[0] == a[0] && (a + b)[1..] == a[1..] + b;
      RunsConcat(Next(s, a[0]), a[1..], u, b, t);
    }
  }

  /** The sets that change nothing: the flag was true already, be it that nobody has tested it
      since, or that the dispatcher has tested and not yet cleared it. */
  function Lost(s: State, steps: seq<Step>): nat
    decreases steps
  {
    if steps == [] || !Enabled(s, steps[0]) then 0
    else (if steps[0].SetOk? && s.ok then 1 else 0) + Lost(Next(s, steps[0]), steps[1..])
  }

  /** The flag is still true when it is about to be cleared. */
  predicate Settled(s: State) {
    s.at == Clearing ==> s.ok
  }

  /** The exact account of a run: every set pays for one dispatch, made or still to come, unless
      it is lost. */
  lemma {:induction false} SetsAccounted(s: State, steps: seq<Step>, t: State)
    requires Runs(s, steps, t) && Settled(s)
    ensures Settled(t)
    ensures |t.dispatched| + Credit(t) + Lost(s, steps) == |s.dispatched| + Credit(s) + t.sets - s.sets
    decreases steps
  {
    if steps != [] {
      SetsAccounted(Next(s, steps[0]), steps[1..], t);
    }
  }

  /** Main result: from the start on, every set of the flag pays for a dispatch if and only if the
      flag was false whenever it was set; and a dispatcher that has come to rest has made one
      dispatch for the start and one for each set that was not lost. */
  lemma {:induction false} EverySetPaysIff(steps: seq<Step>, t: State)
    requires Runs(Initial(), steps, t)
    ensures |t.dispatched| + Credit(t) == 1 + t.sets <==> Lost(Initial(), steps) == 0
    ensures t.at == Testing && !t.ok ==> |t.dispatched| == 1 + t.sets - Lost(Initial(), steps)
  {
    SetsAccounted(Initial(), steps, t);
  }

  /** A flag set between test and clear is lost: the second request waits although the flag was
      set for it. */
  lemma LostInWindow(a: Request, b: Request)
    ensures var steps, t :=
      [Register(a), Register(b), Test, SetOk, Clear, Pop], State(false, Testing, [b], [a, b], [a], 1);
            Runs(Initial(), steps, t) && Next(t, Test) == t && Lost(Initial(), steps) == 1
  {
    var s2 := State(true, Testing, [a, b], [a, b], [], 0);
    var s4 := State(true, Clearing, [a, b], [a, b], [], 1);
    var t := State(false, Testing, [b], [a, b], [a], 1);
    TwoRegistered(a, b, [Test, SetOk, Clear, Pop], t);
    assert Next(Next(s2, Test), SetOk) == s4;
    assert Next(Next(s4, Clear), Pop) == t;
    FourSteps(s2, Test, SetOk, Clear, Pop, t);
  }

  /** So is a flag set before anybody has tested it. */
  lemma LostBeforeTest(a: Request, b: Request)
    ensures var steps, t :=
      [Register(a), Register(b), SetOk, Test, Clear, Pop], State(false, Testing, [b], [a, b], [a], 1);
            Runs(Initial(), steps, t) && Next(t, Test) == t && Lost(Initial(), steps) == 1
  {
    var s2 := State(true, Testing, [a, b], [a, b], [], 0);
    var s4 := State(true, Clearing, [a, b], [a, b], [], 1);
    var t := State(false, Testing, [b], [a, b], [a], 1);
    TwoRegistered(a, b, [SetOk, Test, Clear, Pop], t);
    assert Next(Next(s2, SetOk), Test) == s4;
    assert Next(Next(s4, Clear), Pop) == t;
    FourSteps(s2, SetOk, Test, Clear, Pop, t);
  }

  lemma TwoRegistered(a: Request, b: Request, rest: seq<Step>, t: State)
    ensures var s2 := State(true, Testing, [a, b], [a, b], [], 0);
            && (Runs(s2, rest, t) ==> Runs(Initial(), [Register(a), Register(b)] + rest, t))
            && Lost(Initial(), [Register(a), Register(b)] + rest) == Lost(s2, rest)
  {
    var steps := [Register(a), Register(b)] + rest;
    assert steps[1..] == [Register(b)] + rest && steps[1..][1..] == rest;
    assert Next(Next(Initial(), Register(a)), Register(b)) == State(true, Testing, [a, b], [a, b], [], 0);
  }

  lemma FourSteps(s: State, e0: Step, e1: Step, e2: Step, e3: Step, t: State)
    requires Enabled(s, e0) && Enabled(Next(s, e0), e1) && Enabled(Next(Next(s, e0), e1), e2)
    requires Enabled(Next(Next(Next(s, e0), e1), e2), e3) && t == Next(Next(Next(Next(s, e0), e1), e2), e3)
    requires !e3.SetOk? && !e2.SetOk?
    ensures Runs(s, [e0, e1, e2, e3], t)
    ensures Lost(s, [e0, e1, e2, e3])
         == (if e0.SetOk? && s.ok then 1 else 0) + if e1.SetOk? && Next(s, e0).ok then 1 else 0
  {
    hide Next, Enabled;
    var steps := [e0, e1, e2, e3];
    assert steps[1..] == [e1, e2, e3] && steps[1..][1..] == [e2, e3] && steps[1..][1..][1..] == [e3];
    assert steps[1..][1..][1..][1..] == [];
    var s1 := Next(s, e0);
    var s2 := Next(s1, e1);
    var s3 := Next(s2, e2);
    assert Runs(s3, [e3], t) && Lost(s3, [e3]) == 0 by { assert [e3][1..] == [] && Runs(t, [], t); }
    assert Runs(s2, [e2, e3], t) && Lost(s2, [e2, e3]) == 0 by { assert [e2, e3][1..] == [e3]; }
    assert Runs(s1, [e1, e2, e3], t) && Lost(s1, [e1, e2, e3]) == if e1.SetOk? && s1.ok then 1 else 0 by {
      assert [e1, e2, e3][1..] == [e2, e3];
    }
  }

  // ----- the loop body, step by step -----

  /** The dispatcher thread and what it shares with the others. */
  class Dispatcher {
    var is_ok_next: bool
    var at: Position
    const cq: ConcurrentQueue<Request>
    ghost var pushed: seq<Request>
    ghost var dispatched: seq<Request>
    ghost var sets: nat

    constructor ()
      ensures Abstract() == Initial() && fresh(cq)
    {
      cq := new ConcurrentQueue();
      is_ok_next, at := true, Testing;
      pushed, dispatched, sets := [], [], 0;
    }

    ghost function Abstract(): State
      reads this, cq
    {
      State(is_ok_next, at, cq.the_queue, pushed, dispatched, sets)
    }

    /** Another thread: RegisterRequest. */
    method RegisterRequest(request: Request)
      modifies this`pushed, cq
      ensures Abstract() == Next(old(Abstract()), Register(request))
    {
      cq.Push(request);
      pushed := pushed + [request];
    }

    /** Another thread: the end of a coordination or of the last cancellation. */
    method Release()
      modifies this`is_ok_next, this`sets
      ensures Abstract() == Next(old(Abstract()), SetOk)
    {
      is_ok_next := true;
      sets := sets + 1;
    }

    method TestFlag()
      requires at == Testing
      modifies this`at
      ensures Abstract() == Next(old(Abstract()), Test)
    {
      if is_ok_next == true {
        at := Clearing;
      }
    }

    method ClearFlag()
      requires at == Clearing
      modifies this`at, this`is_ok_next
      ensures Abstract() == Next(old(Abstract()), Clear)
    {
      is_ok_next := false;
      at := Waiting;
    }

    method Dispatch() returns (request: Request)
      requires at == Waiting && cq.the_queue != []
      modifies this`at, this`dispatched, cq
      ensures Abstract() == Next(old(Abstract()), Pop)
      ensures dispatched == old(dispatched) + [request]
    {
      request := cq.WaitAndPop();
      dispatched := dispatched + [request];
      at := Testing;
    }
  }
}
