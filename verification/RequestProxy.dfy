/**
  * Requests to a remote server that many callers share: callers number their requests, one manager
  * matches the server's packages to them, and callers that time out cancel. The callers and the
  * manager run concurrently; an action is one step of one of them, and a run is any interleaving.
  */
module RequestProxy {
  import opened Wrappers

  /** Sequence numbers are uint32 and wrap around. */
  const MODULUS := 0x1_0000_0000

  type Package = seq<int>

  /** What goes through reqChan. The caller stands for its RspChan; a cancel carries only the number. */
  datatype Message = Message(isCancel: bool, seqno: int, caller: nat)

  datatype Arrival = Arrival(seqno: int, pkg: Package)

  /**
    * Starting: numbered, but not yet in reqChan. TimingOut: the timer won, the cancel is not yet in
    * reqChan. Answered and GivenUp: RequestToRemote has returned.
    */
  datatype Phase = Starting | Waiting | TimingOut | Answered(pkg: Package) | GivenUp

  /**
    * The buffer is RspChan, which has room for one package. History: how often something was sent
    * to it, and how much had arrived when the manager registered the request.
    */
  datatype Caller = Caller(seqno: int, phase: Phase, buffer: Option<Package>, sent: nat, since: nat)

  /** Blocked: the manager tried to send to a full RspChan. Arrived: all that recvChan delivered. */
  datatype State = State(counter: int, callers: seq<Caller>, reqChan: seq<Message>,
                         reqMap: map<int, nat>, arrived: seq<Arrival>, blocked: bool)

  datatype Action =
    | Start
    | Enqueue(i: nat)
    | Expire(i: nat)
    | Cancel(i: nat)
    | Return(i: nat)
    | Take
    | Receive(arrival: Arrival)

  // ----- What the manager does to its map; shared with ConnManager -----

  function Taken<T>(m: map<int, T>, isCancel: bool, seqno: int, request: T): map<int, T>
  {
    if isCancel then m - {seqno} else m[seqno := request]
  }

  function Dropped<T>(m: map<int, T>, seqno: int): map<int, T>
  {
    m - {seqno}
  }

  // ----- The steps -----

  function With(s: State, i: nat, c: Caller): State
    requires i < |s.callers|
  {
    s.(callers := s.callers[i := c])
  }

  function Init(): State
  {
    State(0, [], [], map[], [], false)
  }

  predicate Enabled(s: State, a: Action)
  {
    !s.blocked &&
    match a
    case Start => true
    case Enqueue(i) => i < |s.callers| && s.callers[i].phase == Starting
    case Expire(i) => i < |s.callers| && s.callers[i].phase == Waiting
    case Cancel(i) => i < |s.callers| && s.callers[i].phase == TimingOut
    case Return(i) => i < |s.callers| && s.callers[i].phase == Waiting && s.callers[i].buffer.Some?
    case Take => s.reqChan != []
    case Receive(_) => true
  }

  function Step(s: State, a: Action): State
    requires Enabled(s, a)
  {
    match a
    case Start =>
      var seqno := (s.counter + 1) % MODULUS;
      s.(counter := seqno, callers := s.callers + [Caller(seqno, Starting, None, 0, 0)])
    case Enqueue(i) =>
      var c := s.callers[i];
      With(s, i, c.(phase := Waiting)).(reqChan := s.reqChan + [Message(false, c.seqno, i)])
    case Expire(i) =>
      With(s, i, s.callers[i].(phase := TimingOut))
    case Cancel(i) =>
      var c := s.callers[i];
      With(s, i, c.(phase := GivenUp)).(reqChan := s.reqChan + [Message(true, c.seqno, i)])
    case Return(i) =>
      var c := s.callers[i];
      With(s, i, c.(phase := Answered(c.buffer.value), buffer := None))
    case Take =>
      TakeStep(s)
    case Receive(arrival) =>
      ReceiveStep(s, arrival)
  }

  function TakeStep(s: State): State
    requires s.reqChan != []
  {
    var m := s.reqChan[0];
    var s' := s.(reqChan := s.reqChan[1..], reqMap := Taken(s.reqMap, m.isCancel, m.seqno, m.caller));
    if m.isCancel || m.caller >= |s.callers| then s'
    else With(s', m.caller, s.callers[m.caller].(since := |s.arrived|))
  }

  /** A package nobody waits for is dropped; sending to a full RspChan would block. */
  function ReceiveStep(s: State, arrival: Arrival): State
  {
    var s' := s.(arrived := s.arrived + [arrival]);
    if arrival.seqno !in s.reqMap then s'
    else
      var i := s.reqMap[arrival.seqno];
      if i >= |s.callers| then s'
      else
        var c := s.callers[i];
        if c.buffer.Some? then s'.(blocked := true)
        else
          With(s', i, c.(buffer := Some(arrival.pkg), sent := c.sent + 1)).
          (reqMap := Dropped(s.reqMap, arrival.seqno))
  }

  // ----- The window of sequence numbers -----

  predicate Finished(c: Caller) { c.phase.Answered? || c.phase.GivenUp? }

  /** Some number in use belongs to the request: it is not over, queued, or registered. */
  ghost predicate Live(s: State, i: nat)
    requires i < |s.callers|
  {
    || !Finished(s.callers[i])
    || (exists p :: 0 <= p < |s.reqChan| && s.reqChan[p].caller == i)
    || (s.callers[i].seqno in s.reqMap && s.reqMap[s.callers[i].seqno] == i)
  }

  /** Fewer than 2^32 requests start while one is live. */
  ghost predicate Window(s: State)
  {
    forall i: nat :: i < |s.callers| && Live(s, i) ==> |s.callers| - i <= 0x1_0000_0000
  }

  // ----- The invariant -----

  /** The package is the first one with the number among those that arrived since then. */
  ghost predicate FirstSince(arrived: seq<Arrival>, since: nat, seqno: int, pkg: Package)
  {
    exists k :: since <= k < |arrived| && arrived[k] == Arrival(seqno, pkg) && NoneSince(arrived[..k], since, seqno)
  }

  ghost predicate NoneSince(arrived: seq<Arrival>, since: nat, seqno: int)
  {
    forall k :: since <= k < |arrived| ==> arrived[k].seqno != seqno
  }

  predicate Underway(p: Phase) { p.Waiting? || p.TimingOut? || p.GivenUp? }

  ghost predicate Numbered(s: State)
  {
    && s.counter == |s.callers| % MODULUS
    && forall i :: 0 <= i < |s.callers| ==> s.callers[i].seqno == (i + 1) % MODULUS
  }

  /** No message follows the cancel of its caller, and none comes twice. */
  ghost predicate QueueInvariant(s: State)
  {
    && (forall p :: 0 <= p < |s.reqChan| ==>
          var m := s.reqChan[p];
          && m.caller < |s.callers|
          && m.seqno == s.callers[m.caller].seqno
          && (m.isCancel ==> s.callers[m.caller].phase.GivenUp?)
          && (!m.isCancel ==> Unregistered(s, m.caller)))
    && (forall p, q :: 0 <= p < q < |s.reqChan| && s.reqChan[p].caller == s.reqChan[q].caller ==>
          !s.reqChan[p].isCancel && s.reqChan[q].isCancel)
  }

  predicate InMap(s: State, i: nat)
    requires i < |s.callers|
  {
    s.callers[i].seqno in s.reqMap && s.reqMap[s.callers[i].seqno] == i
  }

  ghost predicate CancelPending(s: State, i: nat)
    requires i < |s.callers|
  {
    Message(true, s.callers[i].seqno, i) in s.reqChan
  }

  /** The request waits in reqChan to be registered. */
  ghost predicate Unregistered(s: State, i: nat)
    requires i < |s.callers|
  {
    var c := s.callers[i];
    && c.sent == 0 && Underway(c.phase) && !InMap(s, i)
    && (c.phase.GivenUp? ==> CancelPending(s, i))
  }

  /** Whatever is registered has a caller that waits or a cancel behind it, and is not answered. */
  ghost predicate MapInvariant(s: State)
  {
    forall k <- s.reqMap ::
      var i := s.reqMap[k];
      && i < |s.callers|
      && s.callers[i].seqno == k
      && s.callers[i].sent == 0
      && Underway(s.callers[i].phase)
      && (s.callers[i].phase.GivenUp? ==> CancelPending(s, i))
      && s.callers[i].since <= |s.arrived|
      && NoneSince(s.arrived, s.callers[i].since, k)
  }

  /** One package at most was sent to the caller, and it is the first one of its own number. */
  ghost predicate CallerInvariant(s: State, i: nat)
    requires i < |s.callers|
  {
    var c := s.callers[i];
    && c.sent <= 1
    && (c.phase.Starting? ==> c.sent == 0)
    && (c.buffer.Some? ==> c.sent == 1 && FirstSince(s.arrived, c.since, c.seqno, c.buffer.value))
    && (c.phase.Answered? ==> c.sent == 1 && c.buffer.None? && FirstSince(s.arrived, c.since, c.seqno, c.phase.pkg))
    && (c.phase.Waiting? || c.phase.TimingOut? ==>
          c.buffer.Some? || InMap(s, i) || Message(false, c.seqno, i) in s.reqChan)
  }

  ghost predicate Invariant(s: State)
  {
    && !s.blocked
    && Numbered(s)
    && QueueInvariant(s)
    && MapInvariant(s)
    && (forall i :: 0 <= i < |s.callers| ==> CallerInvariant(s, i))
  }

  // ----- Every step keeps the invariant -----

  lemma WrapApart(i: nat, j: nat)
    requires i < j < i + MODULUS
    ensures (i + 1) % MODULUS != (j + 1) % MODULUS
  {
  }

  /** Within the window, live requests have different numbers. */
  lemma LiveApart(s: State, i: nat, j: nat)
    requires Numbered(s) && Window(s)
    requires i < |s.callers| && j < |s.callers| && Live(s, i) && Live(s, j)
    ensures s.callers[i].seqno == s.callers[j].seqno ==> i == j
  {
    if i < j {
      WrapApart(i, j);
    } else if j < i {
      WrapApart(j, i);
    }
  }

  lemma InitKeeps()
    ensures Invariant(Init())
  {
  }

  lemma StartKeeps(s: State)
    requires Invariant(s)
    ensures Invariant(Step(s, Start))
  {
    var s' := Step(s, Start);
    forall i | 0 <= i < |s.callers|
      ensures CallerInvariant(s', i)
    {
      assert CallerInvariant(s, i) && s'.callers[i] == s.callers[i];
    }
    forall p | 0 <= p < |s.reqChan| && !s.reqChan[p].isCancel
      ensures Unregistered(s', s.reqChan[p].caller)
    {
      assert Unregistered(s, s.reqChan[p].caller);
    }
  }

  lemma ExpireKeeps(s: State, i: nat)
    requires Invariant(s) && Enabled(s, Expire(i))
    ensures Invariant(Step(s, Expire(i)))
  {
    var s' := Step(s, Expire(i));
    forall j | 0 <= j < |s.callers|
      ensures CallerInvariant(s', j)
    {
      assert CallerInvariant(s, j);
    }
  }

  lemma ReturnKeeps(s: State, i: nat)
    requires Invariant(s) && Enabled(s, Return(i))
    ensures Invariant(Step(s, Return(i)))
  {
    var s' := Step(s, Return(i));
    assert CallerInvariant(s, i);
    forall j | 0 <= j < |s.callers|
      ensures CallerInvariant(s', j)
    {
      assert CallerInvariant(s, j);
    }
  }

  lemma EnqueueKeeps(s: State, i: nat)
    requires Invariant(s) && Enabled(s, Enqueue(i))
    ensures Invariant(Step(s, Enqueue(i)))
  {
    var s' := Step(s, Enqueue(i));
    assert CallerInvariant(s, i);
    forall j | 0 <= j < |s.callers|
      ensures CallerInvariant(s', j)
    {
      assert CallerInvariant(s, j);
    }
  }

  lemma CancelKeeps(s: State, i: nat)
    requires Invariant(s) && Enabled(s, Cancel(i))
    ensures Invariant(Step(s, Cancel(i)))
  {
    var s' := Step(s, Cancel(i));
    assert CallerInvariant(s, i);
    forall j | 0 <= j < |s.callers|
      ensures CallerInvariant(s', j)
    {
      assert CallerInvariant(s, j);
    }
  }

  /** The number of the next message is not registered to another caller. */
  predicate Undisputed(s: State)
  {
    s.reqChan != [] && s.reqChan[0].seqno in s.reqMap ==> s.reqMap[s.reqChan[0].seqno] == s.reqChan[0].caller
  }

  /** Within the window no number is disputed. */
  lemma WindowIsUndisputed(s: State)
    requires Invariant(s) && Window(s)
    ensures Undisputed(s)
  {
    if s.reqChan != [] && s.reqChan[0].seqno in s.reqMap {
      LiveApart(s, s.reqMap[s.reqChan[0].seqno], s.reqChan[0].caller);
    }
  }

  lemma TakeKeepsQueue(s: State)
    requires Invariant(s) && Undisputed(s) && Enabled(s, Take)
    ensures QueueInvariant(Step(s, Take))
  {
  }

  lemma TakeKeepsMap(s: State)
    requires Invariant(s) && Undisputed(s) && Enabled(s, Take)
    ensures MapInvariant(Step(s, Take))
  {
  }

  lemma TakeKeepsCaller(s: State, j: nat)
    requires Invariant(s) && Undisputed(s) && Enabled(s, Take) && j < |s.callers|
    ensures CallerInvariant(Step(s, Take), j)
  {
    assert CallerInvariant(s, j);
    var request := Message(false, s.callers[j].seqno, j);
    if request in s.reqChan && s.reqChan[0] != request {
      assert request in Step(s, Take).reqChan;
    }
  }

  lemma TakeKeeps(s: State)
    requires Invariant(s) && Undisputed(s) && Enabled(s, Take)
    ensures Invariant(Step(s, Take))
  {
    TakeKeepsQueue(s);
    TakeKeepsMap(s);
    forall j | 0 <= j < |s.callers|
      ensures CallerInvariant(Step(s, Take), j)
    {
      TakeKeepsCaller(s, j);
    }
  }

  lemma FirstSinceGrows(arrived: seq<Arrival>, last: Arrival, since: nat, seqno: int, pkg: Package)
    requires FirstSince(arrived, since, seqno, pkg)
    ensures FirstSince(arrived + [last], since, seqno, pkg)
  {
    var k :| since <= k < |arrived| && arrived[k] == Arrival(seqno, pkg) && NoneSince(arrived[..k], since, seqno);
    assert (arrived + [last])[..k] == arrived[..k];
  }

  lemma FirstSinceNow(arrived: seq<Arrival>, last: Arrival, since: nat)
    requires since <= |arrived| && NoneSince(arrived, since, last.seqno)
    ensures FirstSince(arrived + [last], since, last.seqno, last.pkg)
  {
    assert (arrived + [last])[..|arrived|] == arrived;
    assert (arrived + [last])[|arrived|] == last;
  }

  lemma ReceiveKeeps(s: State, arrival: Arrival)
    requires Invariant(s) && Enabled(s, Receive(arrival))
    ensures Invariant(Step(s, Receive(arrival)))
  {
    var s' := Step(s, Receive(arrival));
    if arrival.seqno in s.reqMap {
      var i := s.reqMap[arrival.seqno];
      assert CallerInvariant(s, i);
      FirstSinceNow(s.arrived, arrival, s.callers[i].since);
    }
    forall j | 0 <= j < |s.callers|
      ensures CallerInvariant(s', j)
    {
      assert CallerInvariant(s, j);
      var c := s.callers[j];
      if c.buffer.Some? {
        FirstSinceGrows(s.arrived, arrival, c.since, c.seqno, c.buffer.value);
      } else if c.phase.Answered? {
        FirstSinceGrows(s.arrived, arrival, c.since, c.seqno, c.phase.pkg);
      }
    }
  }
}
