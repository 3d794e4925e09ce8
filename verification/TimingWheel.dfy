/** A timing wheel: a ring of channels, one of which is closed and replaced at every tick. */
module TimingWheel {
  import opened Wrappers

  // ----- Go's integer division, which truncates towards zero -----

  function GoDiv(a: int, b: int): int
    requires b > 0
  {
    if a >= 0 then a / b else -(-a / b)
  }

  function GoMod(a: int, b: int): int
    requires b > 0
  {
    if a >= 0 then a % b else -(-a % b)
  }

  /** Quotient and remainder belong together, and the remainder has the sign of the dividend. */
  lemma Truncates(a: int, b: int)
    requires b > 0
    ensures GoDiv(a, b) * b + GoMod(a, b) == a
    ensures if a >= 0 then 0 <= GoMod(a, b) < b else -b < GoMod(a, b) <= 0
  {
    var c := if a >= 0 then a else -a;
    var q := c / b;
    assert c == q * b + c % b;
    assert -q * b == -(q * b);
  }

  lemma AtLeastOnce(d: int, n: int)
    requires d >= 1 && n > 0
    ensures d * n >= n
  {
    assert d * n == (d - 1) * n + n;
  }

  lemma ModUnique(x: int, k: int, r: int, n: int)
    requires 0 <= r < n && x == k * n + r
    ensures x % n == r
  {
    DivModUnique(k, r, x / n, x % n, n);
  }

  lemma DivModUnique(k: int, r: int, q: int, m: int, n: int)
    requires 0 <= r < n && 0 <= m < n && k * n + r == q * n + m
    ensures m == r
  {
    assert (k - q) * n == m - r && (q - k) * n == r - m;
    if k > q {
      AtLeastOnce(k - q, n);
    } else if k < q {
      AtLeastOnce(q - k, n);
    }
  }

  /** Timeouts below the maximum reach no further than the ring. */
  lemma StepsBelow(timeout: int, interval: int, n: int)
    requires interval > 0 && n > 0 && timeout < interval * n
    ensures GoDiv(timeout, interval) < n
    ensures GoDiv(timeout, interval) >= 0 <==> timeout > -interval
  {
    if timeout >= 0 {
      QuotientBelow(timeout, interval, n);
    } else {
      Quotient(-timeout, interval);
    }
  }

  lemma OrderKept(a: int, b: int, d: int)
    requires a <= b && d > 0
    ensures a * d <= b * d
  {
    assert (b - a) * d >= 0;
  }

  lemma QuotientBelow(x: int, d: int, n: int)
    requires x >= 0 && d > 0 && x < d * n
    ensures 0 <= x / d < n
  {
    Quotient(x, d);
    var q := x / d;
    assert q * d <= x;
    if q >= n {
      OrderKept(n, q, d);
    }
  }

  lemma Quotient(x: int, d: int)
    requires x >= 0 && d > 0
    ensures 0 <= x / d && (x / d == 0 <==> x < d)
  {
    var q := x / d;
    assert x == q * d + x % d;
    if q >= 1 {
      AtLeastOnce(q, d);
    } else if q <= -1 {
      AtLeastOnce(-q, d);
    }
  }

  /** The place of the channel that is closed after j more ticks. */
  function Slot(pos: int, j: int, n: int): (k: int)
    requires 0 <= pos < n && 0 <= j < n
    ensures 0 <= k < n
  {
    if pos + j < n then pos + j else pos + j - n
  }

  /** The source's index for q steps, when it is no negative one, is the slot of q modulo n. */
  lemma IndexIsSlot(pos: int, q: int, n: int)
    requires 0 <= pos < n
    ensures GoMod(pos + q, n) >= 0 ==> GoMod(pos + q, n) == Slot(pos, q % n, n)
    ensures GoMod(pos + q, n) < 0 <==> pos + q < 0 && Slot(pos, q % n, n) != 0
  {
    var j, k := q % n, q / n;
    var slot := Slot(pos, j, n);
    var m := if pos + j < n then k else k + 1;
    assert pos + q == m * n + slot;
    if pos + q >= 0 {
      ModUnique(pos + q, m, slot, n);
    } else if slot == 0 {
      ModUnique(-(pos + q), -m, 0, n);
    } else {
      assert -(pos + q) == (-m - 1) * n + (n - slot);
      ModUnique(-(pos + q), -m - 1, n - slot, n);
    }
  }

  /** More than `timeout` has passed with n ticks, and at least one of them has come. */
  predicate Passed(n: int, interval: int, timeout: int)
  {
    n > 0 && n * interval > timeout
  }

  /** The steps are the ticks that are not enough. */
  lemma StepsPass(timeout: int, interval: int, n: int)
    requires interval > 0 && timeout > -interval
    ensures GoDiv(timeout, interval) < n <==> Passed(n, interval, timeout)
  {
    var q := GoDiv(timeout, interval);
    Truncates(timeout, interval);
    if timeout < 0 {
      Quotient(-timeout, interval);
      if n > 0 {
        AtLeastOnce(n, interval);
      }
    } else if q < n {
      Quotient(timeout, interval);
      OrderKept(q + 1, n, interval);
    } else {
      OrderKept(n, q, interval);
    }
  }

  datatype Event = Tick | Ask(timeout: int)

  /** The ticks among the events from k on, before i. */
  function Ticks(events: seq<Event>, k: nat, i: nat): (n: nat)
    requires k <= i <= |events|
    ensures n <= i - k
  {
    if k == i then 0 else Ticks(events, k, i - 1) + if events[i - 1].Tick? then 1 else 0
  }

  /** The ring from pos on holds, in order, the channels that the ticks to come will close. */
  ghost predicate Ring(cs: seq<Chan>, pos: int, order: seq<Chan>, ticks: nat)
  {
    && 0 <= pos < |cs| && |order| == ticks + |cs|
    && forall j :: 0 <= j < |cs| ==> cs[Slot(pos, j, |cs|)] == order[ticks + j]
  }

  lemma RingTurns(cs: seq<Chan>, pos: int, order: seq<Chan>, ticks: nat, c: Chan)
    requires Ring(cs, pos, order, ticks)
    ensures cs[pos] == order[ticks]
    ensures Ring(cs[pos := c], (pos + 1) % |cs|, order + [c], ticks + 1)
  {
    var n, cs', order' := |cs|, cs[pos := c], order + [c];
    assert Slot(pos, 0, n) == pos;
    var pos' := Slot(pos, 1 % n, n);
    assert pos' == (pos + 1) % n by {
      IndexIsSlot(pos, 1, n);
    }
    assert pos' == if pos + 1 == n then 0 else pos + 1 by {
      if n > 1 {
        ModUnique(1, 0, 1, n);
      }
    }
    forall j | 0 <= j < n
      ensures cs'[Slot(pos', j, n)] == order'[ticks + 1 + j]
    {
      if j < n - 1 {
        assert Slot(pos', j, n) == Slot(pos, j + 1, n);
      }
    }
  }

  class Chan {
    var closed: bool

    constructor ()
      ensures !closed
    {
      closed := false;
    }

    /** Closing a channel twice panics. */
    method Close()
      requires !closed
      modifies this
      ensures closed
    {
      closed := true;
    }
  }

  class Wheel {
    const interval: int
    const maxTimeout: int
    var cs: array<Chan>
    var pos: int

    /** The ticks so far, and the channels in the order in which ticks close them. */
    ghost var ticks: nat
    ghost var order: seq<Chan>

    ghost predicate Valid()
      reads this, cs, order
    {
      && interval > 0 && maxTimeout == interval * cs.Length
      && (if cs.Length > 0 then Ring(cs[..], pos, order, ticks) else pos == 0 && order == [] && ticks == 0)
      && (forall i, j :: 0 <= i < j < |order| ==> order[i] != order[j])
      && (forall i :: 0 <= i < |order| ==> (order[i].closed <==> i < ticks))
    }

    constructor (interval: int, buckets: int)
      requires interval > 0 && buckets >= 0
      ensures Valid() && ticks == 0 && this.interval == interval && cs.Length == buckets && fresh(cs)
      ensures forall c <- order :: fresh(c)
    {
      this.interval := interval;
      pos := 0;
      maxTimeout := interval * buckets;
      var first := new Chan();
      var ring := new Chan[buckets](_ => first);
      new;
      ticks := 0;
      cs := ring;
      for i := 0 to buckets
        invariant cs == ring && fresh(ring) && ring.Length == buckets
        invariant forall j :: 0 <= j < i ==> fresh(ring[j]) && !ring[j].closed
        invariant forall j, k :: 0 <= j < k < i ==> ring[j] != ring[k]
        modifies ring
      {
        var c := new Chan();
        ring[i] := c;
      }
      order := ring[..];
    }

    /**
      * The channel that is closed by the first tick with which more than `timeout` has passed; none
      * if this panics.
      * A timeout of minus one interval or less either panics or wraps around the ring, and every
      * request to a wheel without buckets panics.
      */
    method After(timeout: int) returns (b: Option<Chan>)
      requires Valid()
      ensures cs.Length == 0 ==> b.None?
      ensures var steps := GoDiv(timeout, interval);
              cs.Length > 0 ==>
              && (b.None? <==> timeout >= maxTimeout
                               || (pos + steps < 0 && Slot(pos, steps % cs.Length, cs.Length) != 0))
              && (b.Some? ==> b.value == order[ticks + steps % cs.Length])
      ensures cs.Length > 0 && -interval < timeout < maxTimeout ==> Awaits(order, b, ticks, timeout)
    {
      if timeout >= maxTimeout {
        return None;
      }
      if cs.Length == 0 {
        return None;
      }
      ghost var steps := GoDiv(timeout, interval);
      StepsBelow(timeout, interval, cs.Length);
      IndexIsSlot(pos, steps, cs.Length);
      if steps >= 0 {
        ModUnique(steps, 0, steps, cs.Length);
        StepsPass(timeout, interval, steps);
        StepsPass(timeout, interval, steps + 1);
        assert IsWait(steps, timeout);
      }
      var index := GoMod(pos + GoDiv(timeout, interval), cs.Length);
      if index < 0 {
        return None;
      }
      b := Some(cs[index]);
    }

    /** Closes and replaces the channel whose turn it is. A wheel without buckets has none, and panics. */
    method OnTicker()
      requires Valid() && cs.Length > 0
      modifies this`pos, this`ticks, this`order, cs, cs[pos]
      ensures Valid() && ticks == old(ticks) + 1
      ensures exists c: Chan :: fresh(c) && order == old(order) + [c]
      ensures old(order)[old(ticks)].closed
    {
      var lastC := cs[pos];
      var c := new Chan();
      RingTurns(cs[..], pos, order, ticks, c);
      ghost var ring := cs[..][pos := c];
      cs[pos] := c;
      assert cs[..] == ring;
      pos := (pos + 1) % cs.Length;
      order := order + [c];
      ticks := ticks + 1;
      lastC.Close();
    }

    /** One event: a tick gives no answer. */
    method Serve(event: Event) returns (b: Option<Chan>)
      requires Valid() && cs.Length > 0
      modifies this`pos, this`ticks, this`order, cs, cs[pos]
      ensures Valid() && old(order) <= order && forall c <- order :: c in old(order) || fresh(c)
      ensures ticks == old(ticks) + if event.Tick? then 1 else 0
      ensures Prompt(event) ==> Awaits(order, b, old(ticks), event.timeout)
    {
      match event
      case Tick =>
        OnTicker();
        b := None;
      case Ask(timeout) =>
        b := After(timeout);
    }

    /**
      * Any run of ticks and requests. The channel given for a timeout is closed exactly if so many
      * ticks have followed, one at least, that they take longer than the timeout.
      */
    method Run(events: seq<Event>) returns (answers: seq<Option<Chan>>)
      requires Valid() && cs.Length > 0
      modifies this`pos, this`ticks, this`order, cs, order
      ensures Valid() && old(order) <= order
      ensures ticks == old(ticks) + Ticks(events, 0, |events|)
      ensures |answers| == |events|
      ensures forall k :: 0 <= k < |events| && events[k].Ask? && -interval < events[k].timeout < maxTimeout ==>
                IsClosedIf(answers[k], Passed(Ticks(events, k, |events|), interval, events[k].timeout))
    {
      answers := [];
      for i := 0 to |events|
        invariant Valid() && old(order) <= order && |answers| == i
        invariant ticks == old(ticks) + Ticks(events, 0, i)
        invariant forall c <- order :: c in old(order) || fresh(c)
        invariant Served(order, answers, old(ticks), events, i)
      {
        ghost var order0 := order;
        assert cs[pos] == order[ticks] && order[ticks] in order by {
          assert Slot(pos, 0, cs.Length) == pos;
        }
        var b := Serve(events[i]);
        ServedNext(order0, order, answers, b, old(ticks), events, i);
        answers := answers + [b];
      }
      forall k | 0 <= k < |events| && Prompt(events[k])
        ensures IsClosedIf(answers[k], Passed(Ticks(events, k, |events|), interval, events[k].timeout))
      {
        TicksSplit(events, k, |events|);
        ClosedInTime(answers[k], old(ticks) + Ticks(events, 0, k), events[k].timeout);
      }
    }

    /** A request that is neither too long nor in the past. */
    predicate Prompt(event: Event)
    {
      event.Ask? && -interval < event.timeout < maxTimeout
    }

    /** The answer is the channel of the first tick after n ticks with which more than the timeout has passed. */
    ghost predicate Awaits(order: seq<Chan>, answer: Option<Chan>, n: nat, timeout: int)
    {
      answer.Some? && exists d: nat :: n + d < |order| && answer.value == order[n + d] && IsWait(d, timeout)
    }

    /** The first i events have their answers. */
    ghost predicate Served(order: seq<Chan>, answers: seq<Option<Chan>>, before: nat, events: seq<Event>, i: nat)
    {
      |answers| == i <= |events| && forall k :: 0 <= k < i ==> ServedAt(order, answers[k], before, events, k)
    }

    ghost predicate ServedAt(order: seq<Chan>, answer: Option<Chan>, before: nat, events: seq<Event>, k: nat)
      requires k < |events|
    {
      Prompt(events[k]) ==> Awaits(order, answer, before + Ticks(events, 0, k), events[k].timeout)
    }

    lemma ServedNext(order: seq<Chan>, order': seq<Chan>, answers: seq<Option<Chan>>, b: Option<Chan>, before: nat,
                     events: seq<Event>, i: nat)
      requires Served(order, answers, before, events, i) && i < |events| && order <= order'
      requires ServedAt(order', b, before, events, i)
      ensures Served(order', answers + [b], before, events, i + 1)
    {
      forall k | 0 <= k < i
        ensures ServedAt(order', answers[k], before, events, k)
      {
        assert ServedAt(order, answers[k], before, events, k);
      }
    }

    ghost predicate IsWait(d: nat, timeout: int)
    {
      !Passed(d, interval, timeout) && Passed(d + 1, interval, timeout)
    }

    lemma ClosedInTime(answer: Option<Chan>, n: nat, timeout: int)
      requires Valid() && Awaits(order, answer, n, timeout) && n <= ticks
      ensures IsClosedIf(answer, Passed(ticks - n, interval, timeout))
    {
      var d: nat :| n + d < |order| && answer.value == order[n + d] && IsWait(d, timeout);
      if d < ticks - n {
        OrderKept(d + 1, ticks - n, interval);
      } else {
        OrderKept(ticks - n, d, interval);
      }
    }
  }

  ghost predicate IsClosedIf(answer: Option<Chan>, due: bool)
    reads if answer.Some? then {answer.value} else {}
  {
    answer.Some? && (answer.value.closed <==> due)
  }

  lemma {:induction false} TicksSplit(events: seq<Event>, k: nat, i: nat)
    requires k <= i <= |events|
    ensures Ticks(events, 0, k) + Ticks(events, k, i) == Ticks(events, 0, i)
    decreases i
  {
    if k < i {
      TicksSplit(events, k, i - 1);
    }
  }
}
