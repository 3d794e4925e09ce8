/** Turning lines into numbers: a chained hash table, shared by both files, gives equivalent lines the
    same id. */
module Interning {

  type Line = seq<int>

  ghost predicate Equivalence(eq: (Line, Line) -> bool)
  {
    && (forall x :: eq(x, x))
    && (forall x, y :: eq(x, y) ==> eq(y, x))
    && (forall x, y, z :: eq(x, y) && eq(y, z) ==> eq(x, z))
  }

  /** Equivalent lines have the same hash. Lines that are not equivalent may have it too. */
  ghost predicate Consistent(eq: (Line, Line) -> bool, hash: Line -> nat)
  {
    forall x, y :: eq(x, y) ==> hash(x) == hash(y)
  }

  class EquivClass {
    const id: nat
    const hash: nat
    const line: Line
    var next: EquivClass?

    constructor (id: nat, hash: nat, line: Line, next: EquivClass?)
      ensures this.id == id && this.hash == hash && this.line == line && this.next == next
    {
      this.id, this.hash, this.line, this.next := id, hash, line, next;
    }
  }

  /** The nodes are linked in this order. */
  ghost predicate Links(chain: seq<EquivClass>)
    reads set n | n in chain
  {
    forall i :: 0 <= i < |chain| ==> Linked(chain, i)
  }

  ghost predicate Linked(chain: seq<EquivClass>, i: int)
    requires 0 <= i < |chain|
    reads chain[i]
  {
    chain[i].next == if i + 1 < |chain| then chain[i + 1] else null
  }

  /** Links the node n, which points to what follows the head, behind the head. */
  method LinkBehind(head: EquivClass, n: EquivClass, ghost chain: seq<EquivClass>)
    returns (ghost chain': seq<EquivClass>)
    requires chain != [] && chain[0] == head && Links(chain) && n !in chain && n.next == head.next
    requires forall i :: 0 < i < |chain| ==> chain[i] != head
    modifies head`next
    ensures Links(chain') && chain' != [] && chain'[0] == head
    ensures forall i :: 0 < i < |chain'| ==> chain'[i] != head
    ensures forall m :: m in chain' <==> m in chain || m == n
  {
    assert Linked(chain, 0);
    chain' := [head, n] + chain[1..];
    head.next := n;
    forall i | 0 <= i < |chain'|
      ensures Linked(chain', i)
    {
      if i > 1 {
        assert old(Linked(chain, i - 1));
      }
    }
  }

  class EquivTable {
    const eq: (Line, Line) -> bool
    const hash: Line -> nat
    const eqhash: array<EquivClass?>
    var nextId: nat
    /** The nodes linked in each bucket, in order. */
    ghost var chains: seq<seq<EquivClass>>
    /** The class, and with it the representative line, of each id given out. */
    ghost var classes: map<nat, EquivClass>
    ghost var repr: set<EquivClass>

    ghost predicate Valid()
      reads `chains, `classes, `repr, eqhash, repr
    {
      && eqhash.Length == |chains| > 0
      && (forall b, n :: 0 <= b < |chains| && n in chains[b] ==> NodeValid(b, n))
      && (forall b :: 0 <= b < |chains| ==> ChainValid(b))
      && (forall i :: i in classes ==> Stored(i))
      && (forall i, j :: i in classes && j in classes && i != j ==> !eq(classes[i].line, classes[j].line))
    }

    /** Bucket b links the nodes of chains[b]. */
    ghost predicate ChainValid(b: int)
      requires eqhash.Length == |chains| && 0 <= b < |chains|
      reads `chains, `repr, eqhash, repr
    {
      var chain := chains[b];
      && eqhash[b] == (if chain == [] then null else chain[0])
      && (forall n :: n in chain ==> n in repr) && Links(chain)
      && forall i :: 0 < i < |chain| ==> chain[i] != chain[0]
    }

    /** A node of bucket b has that bucket's hash and is the class of its id. */
    ghost predicate NodeValid(b: int, n: EquivClass)
      requires |chains| > 0
      reads `chains, `classes, `repr
    {
      && n in repr
      && n.hash == hash(n.line) && n.hash % |chains| == b
      && n.id in classes && classes[n.id] == n
    }

    ghost predicate Stored(i: nat)
      requires i in classes && |chains| > 0
      reads `chains, `classes
    {
      classes[i].id == i && classes[i] in chains[hash(classes[i].line) % |chains|]
    }

    constructor (eq: (Line, Line) -> bool, hash: Line -> nat, buckets: nat)
      requires buckets > 0
      ensures Valid() && fresh(repr) && fresh(eqhash)
      ensures this.eq == eq && this.hash == hash && nextId == 1 && classes == map[]
      ensures eqhash.Length == buckets && forall b :: 0 <= b < buckets ==> eqhash[b] == null
    {
      this.eq, this.hash := eq, hash;
      eqhash := new EquivClass?[buckets](_ => null);
      nextId := 1;
      chains := seq(buckets, _ => []);
      classes := map[];
      new;
      repr := {};
    }

    /** The node does not carry the line's hash together with an equivalent line. */
    ghost predicate Differs(line: Line, n: EquivClass)
    {
      !(n.hash == hash(line) && eq(line, n.line))
    }

    /** A line that its bucket does not hold belongs to no class at all. */
    lemma AbsentMeansNew(line: Line)
      requires Valid() && Equivalence(eq) && Consistent(eq, hash)
      requires forall n :: n in chains[hash(line) % |chains|] ==> Differs(line, n)
      ensures forall i :: i in classes ==> !eq(line, classes[i].line) && !eq(classes[i].line, line)
    {
      var b := hash(line) % |chains|;
      assert ChainValid(b);
      forall i | i in classes
        ensures !eq(line, classes[i].line) && !eq(classes[i].line, line)
      {
        var n := classes[i];
        assert Stored(i);
        if hash(n.line) == hash(line) {
          assert n in chains[b] && Differs(line, n) && NodeValid(b, n);
        }
      }
    }

    /** The head of a bucket is linked nowhere else. */
    lemma OnlyAt(head: EquivClass, b: nat)
      requires Valid() && b < |chains| && eqhash[b] == head
      ensures forall c, i :: 0 <= c < |chains| && 0 <= i < |chains[c]| && chains[c][i] == head ==> c == b && i == 0
    {
      assert ChainValid(b) && NodeValid(b, head);
      forall c, i | 0 <= c < |chains| && 0 <= i < |chains[c]| && chains[c][i] == head
        ensures c == b && i == 0
      {
        assert head in chains[c];
        assert ChainValid(c) && NodeValid(c, head);
      }
    }

    /** Starts the empty bucket b with a node for the line. */
    method AddFirst(b: nat, id: nat, line: Line)
      requires Valid() && b < eqhash.Length && b == hash(line) % eqhash.Length && eqhash[b] == null
      requires id !in classes
      requires forall i :: i in classes ==> !eq(line, classes[i].line) && !eq(classes[i].line, line)
      modifies this`chains, this`classes, this`repr, eqhash
      ensures Valid() && fresh(repr - old(repr))
      ensures id in classes && classes == old(classes)[id := classes[id]] && classes[id].line == line
      ensures forall c :: 0 <= c < eqhash.Length && c != b ==> eqhash[c] == old(eqhash[c])
    {
      assert ChainValid(b);
      var n := new EquivClass(id, hash(line), line, null);
      eqhash[b] := n;
      Record(b, n, chains[b := [n]]);
      forall c | 0 <= c < |chains|
        ensures ChainValid(c)
      {
        if c != b {
          assert old(ChainValid(c));
        }
      }
    }

    /** Links a node for the line behind the head of its bucket. */
    method AddBehind(head: EquivClass, b: nat, id: nat, line: Line)
      requires Valid() && b < eqhash.Length && b == hash(line) % eqhash.Length && eqhash[b] == head
      requires id !in classes
      requires forall i :: i in classes ==> !eq(line, classes[i].line) && !eq(classes[i].line, line)
      modifies this`chains, this`classes, this`repr, head`next
      ensures Valid() && fresh(repr - old(repr))
      ensures id in classes && classes == old(classes)[id := classes[id]] && classes[id].line == line
    {
      assert ChainValid(b);
      OnlyAt(head, b);
      var n := new EquivClass(id, hash(line), line, head.next);
      ghost var chain := LinkBehind(head, n, chains[b]);
      Record(b, n, chains[b := chain]);
      assert ChainValid(b);
      forall c | 0 <= c < |chains| && c != b
        ensures ChainValid(c)
      {
        assert old(ChainValid(c)) && head !in chains[c];
      }
    }

    /** Accounts for the new node n of bucket b. */
    ghost method Record(b: nat, n: EquivClass, chains': seq<seq<EquivClass>>)
      requires |chains| > 0 && b < |chains| == |chains'|
      requires n.hash == hash(n.line) && n.hash % |chains| == b && n.id !in classes && n !in repr
      requires forall c, m :: 0 <= c < |chains| && m in chains[c] ==> NodeValid(c, m)
      requires forall i :: i in classes ==> Stored(i)
      requires forall c, m :: 0 <= c < |chains| ==> (m in chains'[c] <==> m in chains[c] || (c == b && m == n))
      modifies this`chains, this`classes, this`repr
      ensures chains == chains' && classes == old(classes)[n.id := n] && repr == old(repr) + {n}
      ensures forall c, m :: 0 <= c < |chains| && m in chains[c] ==> NodeValid(c, m)
      ensures forall i :: i in classes ==> Stored(i)
    {
      chains := chains';
      classes := classes[n.id := n];
      repr := repr + {n};
      forall c, m | 0 <= c < |chains| && m in chains[c]
        ensures NodeValid(c, m)
      {
        assert m != n ==> old(NodeValid(c, m));
      }
      forall i | i in classes
        ensures Stored(i)
      {
        assert i != n.id ==> old(Stored(i));
      }
    }

    /** The node of the line's bucket that holds an equivalent line, if there is one. */
    method Lookup(line: Line) returns (n: EquivClass?)
      requires Valid()
      ensures n != null ==> n.id in classes && classes[n.id] == n && eq(line, n.line)
      ensures n == null ==> forall m :: m in chains[hash(line) % |chains|] ==> Differs(line, m)
    {
      var hashcode := hash(line);
      var ihash := hashcode % eqhash.Length;
      assert ChainValid(ihash);
      n := eqhash[ihash];
      ghost var k := 0;
      while n != null
        invariant 0 <= k <= |chains[ihash]| && n == if k < |chains[ihash]| then chains[ihash][k] else null
        invariant forall j :: 0 <= j < k ==> Differs(line, chains[ihash][j])
        decreases |chains[ihash]| - k
      {
        assert NodeValid(ihash, n) && Linked(chains[ihash], k);
        if n.hash == hashcode && eq(line, n.line) {
          return;
        }
        n := n.next;
        k := k + 1;
      }
    }

    /** The id of the line's class, which is new if no class so far holds an equivalent line. */
    method Intern(line: Line) returns (id: nat)
      requires Valid() && Equivalence(eq) && Consistent(eq, hash) && Bounded()
      modifies this, eqhash, repr
      ensures Valid() && Bounded() && fresh(repr - old(repr)) && nextId >= old(nextId)
      ensures id in classes && eq(line, classes[id].line)
      ensures Extends(old(classes), classes, old(nextId))
    {
      var found := Lookup(line);
      if found != null {
        return found.id;
      }
      AbsentMeansNew(line);
      id := Insert(line);
    }

    /** Gives the line a class of its own. */
    method Insert(line: Line) returns (id: nat)
      requires Valid() && Bounded() && eq(line, line)
      requires forall i :: i in classes ==> !eq(line, classes[i].line) && !eq(classes[i].line, line)
      modifies this, eqhash, repr
      ensures Valid() && Bounded() && fresh(repr - old(repr)) && nextId >= old(nextId)
      ensures id in classes && eq(line, classes[id].line)
      ensures Extends(old(classes), classes, old(nextId))
    {
      id := nextId;
      var ihash := hash(line) % eqhash.Length;
      var head := eqhash[ihash];
      if head == null {
        AddFirst(ihash, id, line);
      } else {
        HeadInRepr(ihash);
        AddBehind(head, ihash, id, line);
      }
      nextId := nextId + 1;
    }

    lemma HeadInRepr(b: nat)
      requires Valid() && b < eqhash.Length && eqhash[b] != null
      ensures eqhash[b] in repr
    {
      assert ChainValid(b) && NodeValid(b, chains[b][0]);
    }

    /** The ids given out so far lie below the next one. */
    ghost predicate Bounded()
      reads `classes, `nextId
    {
      forall i :: i in classes ==> i < nextId
    }
  }

  /** No class is lost or changed, and ids from `from` on only are added. */
  ghost predicate Extends(before: map<nat, EquivClass>, after: map<nat, EquivClass>, from: nat)
  {
    && (forall i :: i in before ==> i in after && after[i] == before[i])
    && (forall i :: i in after && i !in before ==> i >= from)
  }

  /** Every line has the id of a class that holds an equivalent line. */
  ghost predicate Classified(eq: (Line, Line) -> bool, classes: map<nat, EquivClass>, lines: seq<Line>, ids: seq<nat>)
  {
    && |lines| == |ids|
    && forall i :: 0 <= i < |lines| ==> ids[i] in classes && eq(lines[i], classes[ids[i]].line)
  }

  lemma ClassifiedAppend(eq: (Line, Line) -> bool, before: map<nat, EquivClass>, after: map<nat, EquivClass>, from: nat,
                         lines: seq<Line>, ids: seq<nat>, lines': seq<Line>, ids': seq<nat>)
    requires Classified(eq, before, lines, ids) && Extends(before, after, from)
    requires Classified(eq, after, lines', ids')
    ensures Classified(eq, after, lines + lines', ids + ids')
  {
  }

  lemma ClassifiedNext(eq: (Line, Line) -> bool, before: map<nat, EquivClass>, after: map<nat, EquivClass>, from: nat,
                       lines: seq<Line>, ids: seq<nat>, i: nat, id: nat)
    requires i < |lines| == |ids| && Extends(before, after, from)
    requires Classified(eq, before, lines[..i], ids[..i])
    requires id in after && eq(lines[i], after[id].line)
    ensures Classified(eq, after, lines[..i + 1], ids[i := id][..i + 1])
  {
    ClassifiedAppend(eq, before, after, from, lines[..i], ids[..i], [lines[i]], [id]);
    assert lines[..i + 1] == lines[..i] + [lines[i]];
    assert ids[i := id][..i + 1] == ids[..i] + [id];
  }

  /** Two lines, of either file, have the same id exactly if they are equivalent. */
  ghost predicate SameIds(eq: (Line, Line) -> bool, lines: seq<Line>, ids: seq<nat>)
  {
    && |lines| == |ids|
    && forall i, j :: 0 <= i < |lines| && 0 <= j < |lines| ==> (ids[i] == ids[j] <==> eq(lines[i], lines[j]))
  }

  /** Id 0 is given to the blank lines if they are to be ignored, and to no line otherwise. */
  ghost predicate ZeroIsBlank(eq: (Line, Line) -> bool, ignoreBlank: bool, lines: seq<Line>, ids: seq<nat>)
  {
    |lines| == |ids| && forall i :: 0 <= i < |lines| ==> (ids[i] == 0 <==> ignoreBlank && eq(lines[i], []))
  }

  ghost predicate ZeroClass(table: EquivTable, ignoreBlank: bool)
    reads table
  {
    0 < table.nextId && (0 in table.classes <==> ignoreBlank) && (ignoreBlank ==> table.classes[0].line == [])
  }

  lemma ClassifiedMeansSameIds(table: EquivTable, lines: seq<Line>, ids: seq<nat>)
    requires table.Valid() && Equivalence(table.eq) && Classified(table.eq, table.classes, lines, ids)
    ensures SameIds(table.eq, lines, ids)
  {
    forall i, j | 0 <= i < |lines| && 0 <= j < |lines|
      ensures ids[i] == ids[j] <==> table.eq(lines[i], lines[j])
    {
      var c, d := table.classes[ids[i]].line, table.classes[ids[j]].line;
      assert table.eq(lines[i], c) && table.eq(c, lines[i]);
      assert table.eq(lines[j], d) && table.eq(d, lines[j]);
      if table.eq(lines[i], lines[j]) {
        assert table.eq(c, lines[j]);
        assert table.eq(c, d);
      }
    }
  }

  lemma ClassifiedMeansBlank(table: EquivTable, ignoreBlank: bool, lines: seq<Line>, ids: seq<nat>)
    requires table.Valid() && Equivalence(table.eq) && ZeroClass(table, ignoreBlank)
    requires Classified(table.eq, table.classes, lines, ids)
    ensures ZeroIsBlank(table.eq, ignoreBlank, lines, ids)
  {
    forall i | 0 <= i < |lines|
      ensures ids[i] == 0 <==> ignoreBlank && table.eq(lines[i], [])
    {
      var c := table.classes[ids[i]].line;
      assert table.eq(lines[i], c) && table.eq(c, lines[i]);
      if ignoreBlank && table.eq(lines[i], []) {
        assert table.eq(c, []);
      }
    }
  }

  lemma ExtendsFurther(before: map<nat, EquivClass>, middle: map<nat, EquivClass>, after: map<nat, EquivClass>,
                       from: nat, from': nat)
    requires Extends(before, middle, from) && Extends(middle, after, from') && from <= from'
    ensures Extends(before, after, from)
  {
  }

  /** The id of one line. */
  method InternLine(table: EquivTable, lines: seq<Line>, ids: array<nat>, i: nat, ignoreBlank: bool)
    requires table.Valid() && table.Bounded() && Equivalence(table.eq) && Consistent(table.eq, table.hash)
    requires i < |lines| == ids.Length && ZeroClass(table, ignoreBlank)
    requires Classified(table.eq, table.classes, lines[..i], ids[..i])
    modifies table, table.eqhash, table.repr, ids
    ensures table.Valid() && table.Bounded() && fresh(table.repr - old(table.repr))
    ensures Classified(table.eq, table.classes, lines[..i + 1], ids[..i + 1]) && ZeroClass(table, ignoreBlank)
    ensures Extends(old(table.classes), table.classes, old(table.nextId)) && old(table.nextId) <= table.nextId
  {
    ghost var before, from, sofar := table.classes, table.nextId, ids[..];
    var id := table.Intern(lines[i]);
    ids[i] := id;
    assert ids[..] == sofar[i := id] && sofar[..i] == ids[..i];
    ClassifiedNext(table.eq, before, table.classes, from, lines, sofar, i, id);
  }

  /** Interns the lines of one file. */
  method InternFile(table: EquivTable, lines: seq<Line>, ignoreBlank: bool) returns (ids: array<nat>)
    requires table.Valid() && table.Bounded() && Equivalence(table.eq) && Consistent(table.eq, table.hash)
    requires ZeroClass(table, ignoreBlank)
    modifies table, table.eqhash, table.repr
    ensures fresh(ids) && table.Valid() && table.Bounded() && fresh(table.repr - old(table.repr))
    ensures Classified(table.eq, table.classes, lines, ids[..]) && ZeroClass(table, ignoreBlank)
    ensures Extends(old(table.classes), table.classes, old(table.nextId)) && old(table.nextId) <= table.nextId
  {
    ids := new nat[|lines|](_ => 0);
    for i := 0 to |lines|
      invariant table.Valid() && table.Bounded() && fresh(table.repr - old(table.repr))
      invariant Classified(table.eq, table.classes, lines[..i], ids[..i]) && ZeroClass(table, ignoreBlank)
      invariant Extends(old(table.classes), table.classes, old(table.nextId)) && old(table.nextId) <= table.nextId
    {
      InternLine(table, lines, ids, i, ignoreBlank);
    }
    assert lines[..|lines|] == lines && ids[..|lines|] == ids[..];
  }

  method NewTable(eq: (Line, Line) -> bool, hash: Line -> nat, lineCount: nat,
                  ignoreBlank: bool) returns (table: EquivTable)
    ensures fresh(table) && fresh(table.repr) && fresh(table.eqhash) && table.Valid() && table.Bounded()
    ensures table.eq == eq && table.hash == hash && ZeroClass(table, ignoreBlank)
    ensures forall i :: i in table.classes <==> ignoreBlank && i == 0
  {
    var buckets := 512;
    while buckets < lineCount * 2
      invariant buckets > 0
    {
      buckets := buckets * 2;
    }
    table := new EquivTable(eq, hash, buckets);
    if ignoreBlank {
      table.AddFirst(hash([]) % buckets, 0, []);
    }
  }

  /** Gives each line of the two files its id, and reports the largest id used up to each file. */
  method FindIds(lines1: seq<Line>, lines2: seq<Line>, eq: (Line, Line) -> bool, hash: Line -> nat, ignoreBlank: bool)
    returns (ids1: array<nat>, ids2: array<nat>, maxId1: nat, maxId2: nat)
    requires Equivalence(eq) && Consistent(eq, hash)
    ensures fresh(ids1) && fresh(ids2)
    ensures ids1.Length == |lines1| && ids2.Length == |lines2|
    ensures SameIds(eq, lines1 + lines2, ids1[..] + ids2[..])
    ensures ZeroIsBlank(eq, ignoreBlank, lines1 + lines2, ids1[..] + ids2[..])
    ensures AtMost(ids1[..], maxId1) && AtMost(ids2[..], maxId2)
  {
    var table := NewTable(eq, hash, |lines1| + |lines2|, ignoreBlank);
    ids1 := InternFile(table, lines1, ignoreBlank);
    maxId1 := table.nextId - 1;
    ghost var classes1, from, s1 := table.classes, table.nextId, ids1[..];
    assert AtMost(s1, maxId1);
    ids2 := InternFile(table, lines2, ignoreBlank);
    maxId2 := table.nextId - 1;
    ClassifiedAppend(eq, classes1, table.classes, from, lines1, s1, lines2, ids2[..]);
    ClassifiedMeansSameIds(table, lines1 + lines2, s1 + ids2[..]);
    ClassifiedMeansBlank(table, ignoreBlank, lines1 + lines2, s1 + ids2[..]);
    assert ids1[..] == s1;
  }

  ghost predicate AtMost(ids: seq<nat>, max: nat)
  {
    forall i :: 0 <= i < |ids| ==> ids[i] <= max
  }
}
