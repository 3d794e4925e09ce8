/** What holds of all runs of the request proxy within the window of sequence numbers, and what fails beyond it. */
module RequestRuns {
  import opened Wrappers
  import opened RequestProxy

  /** The state after the actions; none if one of them is not enabled. */
  function Run(actions: seq<Action>): Option<State>
  {
    if actions == [] then Some(Init())
    else
      var n := |actions| - 1;
      match Run(actions[..n])
      case None => None
      case Some(s) => if Enabled(s, actions[n]) then Some(Step(s, actions[n])) else None
  }

  /** Every step of the run is made within the window. */
  ghost predicate InWindow(actions: seq<Action>)
    requires Run(actions).Some?
  {
    actions == [] ||
    var init := actions[..|actions| - 1];
    InWindow(init) && Window(Run(init).value)
  }

  /** Whenever the run takes a message, its number is not registered to another caller. */
  ghost predicate NeverDisputed(actions: seq<Action>)
    requires Run(actions).Some?
  {
    actions == [] ||
    var init, last := actions[..|actions| - 1], actions[|actions| - 1];
    NeverDisputed(init) && (last.Take? ==> Undisputed(Run(init).value))
  }

  lemma StepKeeps(s: State, a: Action)
    requires Invariant(s) && Enabled(s, a) && (a.Take? ==> Undisputed(s))
    ensures Invariant(Step(s, a))
  {
    match a
    case Start => StartKeeps(s);
    case Enqueue(i) => EnqueueKeeps(s, i);
    case Expire(i) => ExpireKeeps(s, i);
    case Cancel(i) => CancelKeeps(s, i);
    case Return(i) => ReturnKeeps(s, i);
    case Take => TakeKeeps(s);
    case Receive(arrival) => ReceiveKeeps(s, arrival);
  }

  lemma {:induction false} RunKeeps(actions: seq<Action>)
    requires Run(actions).Some? && NeverDisputed(actions)
    ensures Invariant(Run(actions).value)
  {
    if actions == [] {
      InitKeeps();
    } else {
      var init := actions[..|actions| - 1];
      RunKeeps(init);
      StepKeeps(Run(init).value, actions[|init|]);
    }
  }

  /** The condition that callers can see to: while one request is live, fewer than 2^32 others start. */
  lemma {:induction false} WindowSuffices(actions: seq<Action>)
    requires Run(actions).Some? && InWindow(actions)
    ensures NeverDisputed(actions)
  {
    if actions != [] {
      var init := actions[..|actions| - 1];
      WindowSuffices(init);
      RunKeeps(init);
      WindowIsUndisputed(Run(init).value);
    }
  }

  /**
    * In every run in which no number is disputed: a caller that is answered got the first package of
    * its own number that arrived after its request was registered, its RspChan was sent to once, and
    * the manager never blocks on any of them.
    */
  lemma AnswersAreOwn(actions: seq<Action>, i: nat)
    requires Run(actions).Some? && NeverDisputed(actions) && i < |Run(actions).value.callers|
    ensures var s := Run(actions).value;
            var c := s.callers[i];
            && !s.blocked
            && c.seqno == (i + 1) % 0x1_0000_0000
            && c.sent <= 1
            && (c.phase.Answered? ==> c.sent == 1 && FirstSince(s.arrived, c.since, c.seqno, c.phase.pkg))
  {
    RunKeeps(actions);
    assert CallerInvariant(Run(actions).value, i);
  }

  /** No request is lost: while its caller waits, it is queued, registered, or answered. */
  lemma NothingIsLost(actions: seq<Action>, i: nat)
    requires Run(actions).Some? && NeverDisputed(actions) && i < |Run(actions).value.callers|
    requires Run(actions).value.callers[i].phase.Waiting?
    ensures !Lost(Run(actions).value, i)
  {
    RunKeeps(actions);
    assert CallerInvariant(Run(actions).value, i);
  }

  ghost predicate Lost(s: State, i: nat)
    requires i < |s.callers|
  {
    var c := s.callers[i];
    && c.phase.Waiting? && c.buffer.None? && !InMap(s, i)
    && forall m <- s.reqChan :: m.caller != i
  }

  /**
    * Exactly when a step loses a waiting caller: when the manager takes another caller's message,
    * request or cancel, whose number is the one that the caller is registered under.
    */
  lemma LossIff(s: State, a: Action, i: nat)
    requires Invariant(s) && Enabled(s, a) && i < |s.callers| && s.callers[i].phase.Waiting?
    ensures Lost(Step(s, a), i) <==>
            && a.Take? && s.reqChan[0].caller != i
            && s.reqChan[0].seqno in s.reqMap && s.reqMap[s.reqChan[0].seqno] == i
  {
    assert CallerInvariant(s, i);
    var c := s.callers[i];
    match a
    case Take => TakeLossIff(s, i);
    case Receive(arrival) => ReceiveLosesNone(s, arrival, i);
    case _ =>
      StepKeeps(s, a);
      assert CallerInvariant(Step(s, a), i);
  }

  lemma ReceiveLosesNone(s: State, arrival: Arrival, i: nat)
    requires Invariant(s) && Enabled(s, Receive(arrival)) && i < |s.callers| && s.callers[i].phase.Waiting?
    ensures !Lost(Step(s, Receive(arrival)), i)
  {
    ReceiveKeeps(s, arrival);
    assert CallerInvariant(Step(s, Receive(arrival)), i);
  }

  lemma TakeLossIff(s: State, i: nat)
    requires Invariant(s) && Enabled(s, Take) && i < |s.callers| && s.callers[i].phase.Waiting?
    ensures Lost(Step(s, Take), i) <==>
            && s.reqChan[0].caller != i
            && s.reqChan[0].seqno in s.reqMap && s.reqMap[s.reqChan[0].seqno] == i
  {
    var s' := Step(s, Take);
    var m, c := s.reqChan[0], s.callers[i];
    assert CallerInvariant(s, i);
    if c.buffer.None? && !InMap(s, i) && m.caller != i {
      assert Message(false, c.seqno, i) in s'.reqChan;
    } else if InMap(s, i) && m.caller != i && m.seqno == c.seqno {
      forall n | n in s'.reqChan
        ensures n.caller != i
      {
        assert n in s.reqChan;
      }
    }
  }

  lemma RegisteredIsUnderway(s: State, k: int)
    requires Invariant(s) && k in s.reqMap && s.reqChan == []
    ensures s.reqMap[k] < |s.callers| && !Finished(s.callers[s.reqMap[k]])
  {
  }

  /** When all callers have returned and reqChan is empty, nothing is left in reqMap. */
  lemma DrainedIsEmpty(actions: seq<Action>)
    requires Run(actions).Some? && NeverDisputed(actions)
    requires Run(actions).value.reqChan == []
    requires forall i :: 0 <= i < |Run(actions).value.callers| ==> Finished(Run(actions).value.callers[i])
    ensures forall k :: k !in Run(actions).value.reqMap
  {
    RunKeeps(actions);
    var s := Run(actions).value;
    if k :| k in s.reqMap {
      RegisteredIsUnderway(s, k);
    }
  }

  // ----- What can always happen -----

  /** The state after more actions; none if one of them is not enabled. */
  function Continue(s: State, actions: seq<Action>): Option<State>
    decreases |actions|
  {
    if actions == [] then Some(s)
    else if Enabled(s, actions[0]) then Continue(Step(s, actions[0]), actions[1..])
    else None
  }

  lemma ContinueNext(s: State, a: Action, actions: seq<Action>)
    requires Enabled(s, a)
    ensures Continue(s, [a] + actions) == Continue(Step(s, a), actions)
  {
    assert ([a] + actions)[1..] == actions;
  }

  /** The manager takes from reqChan and no other request starts or ends meanwhile. */
  ghost predicate OnlyServes(actions: seq<Action>, i: nat)
  {
    forall a <- actions :: a.Take? || a.Receive? || a == Return(i)
  }

  lemma TakeKeepsWindow(s: State)
    requires Invariant(s) && Window(s) && Enabled(s, Take)
    ensures Window(Step(s, Take)) && Invariant(Step(s, Take))
  {
    WindowIsUndisputed(s);
    TakeKeeps(s);
    var s' := Step(s, Take);
    forall i: nat | i < |s'.callers| && Live(s', i)
      ensures Live(s, i)
    {
      if p :| 0 <= p < |s'.reqChan| && s'.reqChan[p].caller == i {
        assert s.reqChan[p + 1].caller == i;
      } else if s.reqChan[0].caller == i {
        assert Live(s, i);
      }
    }
  }

  /** A caller whose package has come returns with it. */
  lemma ReturnsWith(s: State, i: nat)
    requires !s.blocked && i < |s.callers| && s.callers[i].phase.Waiting? && s.callers[i].buffer.Some?
    ensures Enabled(s, Return(i)) && Continue(s, [Return(i)]) == Some(Step(s, Return(i)))
    ensures Step(s, Return(i)).callers[i].phase == Answered(s.callers[i].buffer.value)
  {
    ContinueNext(s, Return(i), []);
    assert [Return(i)] + [] == [Return(i)];
  }

  /** A package for a registered request reaches its caller. */
  lemma Reaches(s: State, i: nat, pkg: Package) returns (arrival: Action)
    requires Invariant(s) && i < |s.callers| && s.callers[i].phase.Waiting? && InMap(s, i)
    ensures arrival == Receive(Arrival(s.callers[i].seqno, pkg)) && Enabled(s, arrival)
    ensures var s' := Step(s, arrival);
            && |s'.callers| == |s.callers| && !s'.blocked
            && s'.callers[i].phase.Waiting? && s'.callers[i].buffer == Some(pkg)
  {
    arrival := Receive(Arrival(s.callers[i].seqno, pkg));
    assert CallerInvariant(s, i);
  }

  /**
    * Within the window a waiting caller can always be answered, without any other caller's doing: the
    * manager takes what is queued, and the server answers with any package.
    */
  lemma {:induction false} CanBeAnswered(s: State, i: nat, pkg: Package) returns (actions: seq<Action>)
    requires Invariant(s) && Window(s) && i < |s.callers| && s.callers[i].phase.Waiting?
    ensures OnlyServes(actions, i) && Continue(s, actions).Some?
    ensures i < |Continue(s, actions).value.callers|
    ensures Continue(s, actions).value.callers[i].phase ==
            Answered(if s.callers[i].buffer.Some? then s.callers[i].buffer.value else pkg)
    decreases |s.reqChan|
  {
    assert CallerInvariant(s, i);
    if s.callers[i].buffer.Some? {
      ReturnsWith(s, i);
      actions := [Return(i)];
    } else if InMap(s, i) {
      var arrival := Reaches(s, i, pkg);
      ReturnsWith(Step(s, arrival), i);
      ContinueNext(s, arrival, [Return(i)]);
      actions := [arrival] + [Return(i)];
    } else {
      TakeKeepsWindow(s);
      var rest := CanBeAnswered(Step(s, Take), i, pkg);
      ContinueNext(s, Take, rest);
      actions := [Take] + rest;
    }
  }

  /** A waiting caller can always give up, and leaves a cancel behind. */
  lemma CanGiveUp(s: State, i: nat)
    requires Invariant(s) && i < |s.callers| && s.callers[i].phase.Waiting?
    ensures Continue(s, [Expire(i), Cancel(i)]).Some?
    ensures var s' := Continue(s, [Expire(i), Cancel(i)]).value;
            && i < |s'.callers| && s'.callers[i].phase.GivenUp?
            && s'.reqChan == s.reqChan + [Message(true, s.callers[i].seqno, i)] && s'.reqMap == s.reqMap
  {
    ContinueNext(s, Expire(i), [Cancel(i)]);
    var s1 := Step(s, Expire(i));
    ContinueNext(s1, Cancel(i), []);
    assert [Expire(i)] + [Cancel(i)] == [Expire(i), Cancel(i)] && [Cancel(i)] + [] == [Cancel(i)];
  }

  // ----- Beyond the window -----

  function Starts(n: nat): (actions: seq<Action>)
    ensures |actions| == n
  {
    seq(n, _ => Start)
  }

  ghost predicate Started(s: State, n: nat)
  {
    && s == State(n % MODULUS, s.callers, [], map[], [], false)
    && |s.callers| == n
    && forall i :: 0 <= i < n ==> s.callers[i] == Caller((i + 1) % MODULUS, Starting, None, 0, 0)
  }

  lemma StartedNext(s: State, n: nat)
    requires Started(s, n)
    ensures Started(Step(s, Start), n + 1)
  {
  }

  lemma {:induction false} RunStarts(n: nat)
    ensures Run(Starts(n)).Some? && Started(Run(Starts(n)).value, n)
  {
    if n > 0 {
      assert Starts(n)[..n - 1] == Starts(n - 1);
      RunStarts(n - 1);
      StartedNext(Run(Starts(n - 1)).value, n - 1);
    }
  }

  lemma RunNext(actions: seq<Action>, a: Action)
    requires Run(actions).Some? && Enabled(Run(actions).value, a)
    ensures Run(actions + [a]) == Some(Step(Run(actions).value, a))
  {
    assert (actions + [a])[..|actions|] == actions;
  }

  lemma Overtaken(s: State, c: Caller)
    requires s == State(s.counter, s.callers, [], map[], [], false) && |s.callers| == MODULUS + 1
    requires c == Caller(1, Starting, None, 0, 0) && s.callers[0] == c && s.callers[MODULUS] == c
    ensures var s1 := s.(callers := s.callers[0 := c.(phase := Waiting)], reqChan := [Message(false, 1, 0)]);
            && Enabled(s, Enqueue(0)) && Step(s, Enqueue(0)) == s1
            && Enabled(s1, Enqueue(MODULUS))
            && var s2 := Step(s1, Enqueue(MODULUS));
            && s2.callers[0] == c.(phase := Waiting) && !s2.blocked && s2.reqMap == map[]
            && |s2.callers| == MODULUS + 1 && s2.reqChan == [Message(false, 1, 0), Message(false, 1, MODULUS)]
  {
  }

  lemma TakenTwice(s: State, c: Caller)
    requires |s.callers| == MODULUS + 1 && s.callers[0] == c.(phase := Waiting) && c.buffer.None?
    requires !s.blocked && s.reqMap == map[] && s.reqChan == [Message(false, 1, 0), Message(false, 1, MODULUS)]
    requires c.seqno == 1
    ensures Enabled(s, Take) && Enabled(Step(s, Take), Take)
    ensures var s' := Step(Step(s, Take), Take); 0 < |s'.callers| && Lost(s', 0)
  {
  }

  /** Without the window the promise fails: the request 2^32 later takes the place of the first one. */
  lemma LostBeyondWindow()
    ensures exists actions :: Run(actions).Some? && 0 < |Run(actions).value.callers| && Lost(Run(actions).value, 0)
  {
    var r0 := Starts(MODULUS + 1);
    RunStarts(MODULUS + 1);
    Overtaken(Run(r0).value, Caller(1, Starting, None, 0, 0));
    RunNext(r0, Enqueue(0));
    var r1 := r0 + [Enqueue(0)];
    RunNext(r1, Enqueue(MODULUS));
    var r2 := r1 + [Enqueue(MODULUS)];
    TakenTwice(Run(r2).value, Caller(1, Starting, None, 0, 0));
    RunNext(r2, Take);
    var r3 := r2 + [Take];
    RunNext(r3, Take);
    assert Run(r3 + [Take]).Some?;
  }
}
