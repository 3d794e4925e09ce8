/** The pass that shifts blocks has exactly one result: every choice that its rounds make is forced. */
module ShiftRuns {
  import opened Marks
  import opened Shift

  lemma SameReach(data: seq<int>, c: seq<bool>, s: int, e: int, up: int, down: int, e': int, up': int, down': int)
    requires Reach(data, c, s, e, up, down) && Reach(data, c, s, e', up', down')
    ensures e == e' && up == up' && down == down'
  {
    SameEnd(c, s, e, e');
  }

  lemma SameBest(score: Scoring, data: seq<int>, s: int, e: int, up: int, down: int, i: int, j: int)
    requires score.Score? && 0 <= up <= s < e && 0 <= down && e + down <= |data|
    requires IsBest(score, data, s, e, up, down, i) && IsBest(score, data, s, e, up, down, j)
    ensures i == j
  {
    assert BoundaryScore(score, data, s, e, i) == BoundaryScore(score, data, s, e, j);
  }

  lemma SameMarks(before: seq<bool>, after: seq<bool>, after': seq<bool>, s: int, e: int, i: int)
    requires Moved(before, after, s, e, i) && Moved(before, after', s, e, i)
    ensures after == after'
  {
  }

  lemma SameRestart(c: seq<bool>, s: int, s': int, n: int, n': int)
    requires 0 <= s' <= |c| && RestartsAt(c, s, s', n) && RestartsAt(c, s, s', n')
    ensures n == n'
  {
  }

  lemma SameRound(data: seq<int>, score: Scoring, r: Round, q: Round)
    requires IsRound(data, score, r) && IsRound(data, score, q) && r.before == q.before && r.from == q.from
    ensures r == q
  {
    assert r.before[r.start] && r.before[q.start];
    SameReach(data, r.before, r.start, r.end, r.up, r.down, q.end, q.up, q.down);
    SameOffset(data, r.before, r.start, r.end, r.up, r.down, score, r.offset, q.offset);
    SameMarks(r.before, r.after, q.after, r.start, r.end, r.offset);
    SameNext(data, r.before, r.after, r.start, r.end, r.up, r.down, r.offset, r.next, q.next);
  }

  lemma SameOffset(data: seq<int>, c: seq<bool>, s: int, e: int, up: int, down: int, score: Scoring, i: int, j: int)
    requires SlidesUp(data, c, s, e, up) && SlidesDown(data, c, s, e, down)
    requires Chosen(data, c, s, e, up, down, score, i) && Chosen(data, c, s, e, up, down, score, j)
    ensures i == j
  {
    if 0 < s && !MergesUp(data, c, s, e, up) && !MergesDown(data, c, s, e, down) && score.Score? {
      SameBest(score, data, s, e, up, down, i, j);
    }
  }

  lemma SameNext(data: seq<int>, c: seq<bool>, c': seq<bool>, s: int, e: int, up: int, down: int, i: int, n: int,
                 n': int)
    requires SlidesUp(data, c, s, e, up) && SlidesDown(data, c, s, e, down) && |c'| == |c|
    requires GoesOn(data, c, c', s, e, up, down, i, n) && GoesOn(data, c, c', s, e, up, down, i, n')
    ensures n == n'
  {
    if 0 < s && MergesUp(data, c, s, e, up) {
      SameRestart(c', s, s - up, n, n');
    }
  }

  lemma SameWithLast(rounds: seq<Round>, rounds': seq<Round>, n: nat)
    requires |rounds| == |rounds'| == n + 1 && rounds[..n] <= rounds'[..n] && rounds[n] == rounds'[n]
    ensures rounds == rounds'
  {
    assert rounds == rounds[..n] + [rounds[n]] && rounds' == rounds'[..n] + [rounds'[n]];
  }

  /** Two runs of rounds from the same marks begin with the same rounds. */
  lemma {:induction false} SameRounds(data: seq<int>, score: Scoring, c0: seq<bool>, rounds: seq<Round>, c: seq<bool>,
                                      k: int, rounds': seq<Round>, c': seq<bool>, k': int)
    requires Leads(data, score, c0, rounds, c, k) && Leads(data, score, c0, rounds', c', k') && |rounds| <= |rounds'|
    ensures rounds <= rounds' && (|rounds| == |rounds'| ==> c == c' && k == k')
    decreases |rounds'|
  {
    if rounds' != [] {
      var n, m := |rounds| - 1, |rounds'| - 1;
      var r' := rounds'[m];
      if n < m {
        SameRounds(data, score, c0, rounds, c, k, rounds'[..m], r'.before, r'.from);
      } else {
        SameRounds(data, score, c0, rounds[..n], rounds[n].before, rounds[n].from, rounds'[..m], r'.before, r'.from);
        SameRound(data, score, rounds[n], r');
        SameWithLast(rounds, rounds', n);
      }
    }
  }

  /** A run of rounds goes through the marks and cursors of its first rounds. */
  lemma {:induction false} GoesThrough(data: seq<int>, score: Scoring, c0: seq<bool>, rounds: seq<Round>, c: seq<bool>,
                                       k: int, n: nat)
    requires Leads(data, score, c0, rounds, c, k) && n < |rounds|
    ensures IsRound(data, score, rounds[n])
    ensures Leads(data, score, c0, rounds[..n], rounds[n].before, rounds[n].from)
    decreases |rounds|
  {
    var m := |rounds| - 1;
    if n < m {
      GoesThrough(data, score, c0, rounds[..m], rounds[m].before, rounds[m].from, n);
      assert rounds[..m][..n] == rounds[..n];
    }
  }

  lemma NoRoundLeft(data: seq<int>, score: Scoring, r: Round)
    requires IsRound(data, score, r)
    ensures !All(r.before, r.from, |r.before|, false)
  {
    assert r.before[r.start];
  }

  /** No run goes on where nothing is marked any more. */
  lemma NoLonger(data: seq<int>, score: Scoring, c0: seq<bool>, rounds: seq<Round>, c: seq<bool>, k: int,
                 rounds': seq<Round>, c': seq<bool>, k': int)
    requires Leads(data, score, c0, rounds, c, k) && Leads(data, score, c0, rounds', c', k') && |rounds| <= |rounds'|
    requires All(c, k, |c|, false)
    ensures c == c'
  {
    SameRounds(data, score, c0, rounds, c, k, rounds', c', k');
    var n := |rounds|;
    if n < |rounds'| {
      var r := rounds'[n];
      GoesThrough(data, score, c0, rounds', c', k', n);
      assert rounds'[..n] == rounds;
      SameRounds(data, score, c0, rounds, c, k, rounds, r.before, r.from);
      NoRoundLeft(data, score, r);
    }
  }

  /** From the same marks, with the same scores, the pass ends with the same marks. */
  lemma ShiftedOnce(data: seq<int>, score: Scoring, c0: seq<bool>, c: seq<bool>, c': seq<bool>)
    requires Shifted(data, score, c0, c) && Shifted(data, score, c0, c')
    ensures c == c'
  {
    var rounds, k :| Leads(data, score, c0, rounds, c, k) && All(c, k, |c|, false);
    var rounds', k' :| Leads(data, score, c0, rounds', c', k') && All(c', k', |c'|, false);
    if |rounds| <= |rounds'| {
      NoLonger(data, score, c0, rounds, c, k, rounds', c', k');
    } else {
      NoLonger(data, score, c0, rounds', c', k', rounds, c, k);
    }
  }
}
