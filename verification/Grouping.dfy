/**
  * Named items kept in one list per name, the names in the order in which they first came: what
  * goes through the lists name by name visits, and that doing so a second time changes nothing.
  */
module Grouping {

  /** The items with one name, in order. */
  function ByName<T>(items: seq<T>, names: seq<string>, name: string): (r: seq<T>)
    requires |items| == |names|
  {
    if items == [] then []
    else
      var n := |items| - 1;
      ByName(items[..n], names[..n], name) + if names[n] == name then [items[n]] else []
  }

  /** Each name once, in the order of the first items with it. */
  function FirstNames(names: seq<string>): seq<string>
  {
    if names == [] then []
    else AddName(FirstNames(names[..|names| - 1]), names[|names| - 1])
  }

  function AddName(order: seq<string>, name: string): seq<string>
  {
    if name in order then order else order + [name]
  }

  /** The items of the first name, then those of the second, and so on. */
  function Blocks<T>(items: seq<T>, names: seq<string>, order: seq<string>): seq<T>
    requires |items| == |names|
  {
    if order == [] then []
    else Blocks(items, names, order[..|order| - 1]) + ByName(items, names, order[|order| - 1])
  }

  function Regroup<T>(items: seq<T>, names: seq<string>): seq<T>
    requires |items| == |names|
  {
    Blocks(items, names, FirstNames(names))
  }

  predicate Distinct(order: seq<string>) { forall i, j :: 0 <= i < j < |order| ==> order[i] != order[j] }

  lemma {:induction false} FirstNamesAre(names: seq<string>)
    ensures Distinct(FirstNames(names))
    ensures forall n :: n in FirstNames(names) <==> n in names
  {
    if names != [] {
      FirstNamesAre(names[..|names| - 1]);
      assert names == names[..|names| - 1] + [names[|names| - 1]];
    }
  }

  lemma {:induction false} ByNameLength<S, T>(a: seq<S>, b: seq<T>, names: seq<string>, name: string)
    requires |a| == |names| == |b|
    ensures |ByName(a, names, name)| == |ByName(b, names, name)|
  {
    if names != [] {
      var n := |names| - 1;
      ByNameLength(a[..n], b[..n], names[..n], name);
    }
  }

  lemma {:induction false} BlocksLength<S, T>(a: seq<S>, b: seq<T>, names: seq<string>, order: seq<string>)
    requires |a| == |names| == |b|
    ensures |Blocks(a, names, order)| == |Blocks(b, names, order)|
  {
    if order != [] {
      BlocksLength(a, b, names, order[..|order| - 1]);
      ByNameLength(a, b, names, order[|order| - 1]);
    }
  }

  lemma {:induction false} ByNameConcat<T>(a: seq<T>, an: seq<string>, b: seq<T>, bn: seq<string>, name: string)
    requires |a| == |an| && |b| == |bn|
    ensures ByName(a + b, an + bn, name) == ByName(a, an, name) + ByName(b, bn, name)
  {
    if b == [] {
      assert a + b == a && an + bn == an;
    } else {
      var n := |b| - 1;
      assert (a + b)[..|a| + n] == a + b[..n] && (an + bn)[..|a| + n] == an + bn[..n];
      ByNameConcat(a, an, b[..n], bn[..n], name);
    }
  }

  /** Within the items of one name, all are of that name and none of another. */
  lemma {:induction false} ByNameTwice<T>(items: seq<T>, names: seq<string>, m: string, name: string)
    requires |items| == |names|
    ensures |ByName(items, names, m)| == |ByName(names, names, m)|
    ensures ByName(ByName(items, names, m), ByName(names, names, m), name) ==
            if m == name then ByName(items, names, m) else []
  {
    ByNameLength(items, names, names, m);
    if names != [] {
      var n := |names| - 1;
      ByNameTwice(items[..n], names[..n], m, name);
      var before, beforeNames := ByName(items[..n], names[..n], m), ByName(names[..n], names[..n], m);
      ByNameLength(items[..n], names[..n], names[..n], m);
      if names[n] == m {
        assert (before + [items[n]])[..|before|] == before;
        assert (beforeNames + [m])[..|before|] == beforeNames;
      } else {
        assert before + [] == before && beforeNames + [] == beforeNames;
      }
    }
  }

  lemma LastName(order: seq<string>, init: seq<string>, last: string, name: string)
    requires order == init + [last] && Distinct(order)
    ensures AddName(init, last) == order && Distinct(init) && last !in init
    ensures name in order <==> name in init || name == last
  {
    assert order[|init|] == last;
    assert forall i :: 0 <= i < |init| ==> order[i] == init[i];
  }

  lemma BlocksNext<T>(items: seq<T>, names: seq<string>, init: seq<string>, last: string)
    requires |items| == |names|
    ensures Blocks(items, names, init + [last]) == Blocks(items, names, init) + ByName(items, names, last)
  {
    assert (init + [last])[..|init|] == init;
  }

  /** Regrouping keeps the list of every name. */
  lemma {:induction false} ByNameOfBlocks<T>(items: seq<T>, names: seq<string>, order: seq<string>, name: string)
    requires |items| == |names| && Distinct(order)
    ensures |Blocks(items, names, order)| == |Blocks(names, names, order)|
    ensures ByName(Blocks(items, names, order), Blocks(names, names, order), name) ==
            if name in order then ByName(items, names, name) else []
  {
    BlocksLength(items, names, names, order);
    if order != [] {
      var init, last := order[..|order| - 1], order[|order| - 1];
      assert order == init + [last];
      LastName(order, init, last, name);
      ByNameOfBlocks(items, names, init, name);
      ByNameTwice(items, names, last, name);
      BlocksNext(items, names, init, last);
      BlocksNext(names, names, init, last);
      ByNameConcat(Blocks(items, names, init), Blocks(names, names, init),
                   ByName(items, names, last), ByName(names, names, last), name);
    }
  }

  lemma {:induction false} OfOneName(names: seq<string>, name: string)
    ensures forall i :: 0 <= i < |ByName(names, names, name)| ==> ByName(names, names, name)[i] == name
    ensures name in names ==> ByName(names, names, name) != []
  {
    if names != [] {
      OfOneName(names[..|names| - 1], name);
      assert names == names[..|names| - 1] + [names[|names| - 1]];
    }
  }

  lemma {:induction false} FirstNamesOfBlock(before: seq<string>, block: seq<string>, name: string)
    requires forall i :: 0 <= i < |block| ==> block[i] == name
    ensures FirstNames(before + block) == if block == [] then FirstNames(before) else AddName(FirstNames(before), name)
  {
    if block == [] {
      assert before + block == before;
    } else {
      var n := |block| - 1;
      assert (before + block)[..|before| + n] == before + block[..n];
      FirstNamesOfBlock(before, block[..n], name);
    }
  }

  /** Regrouping keeps the order of the names. */
  lemma {:induction false} FirstNamesOfBlocks(names: seq<string>, order: seq<string>)
    requires Distinct(order) && forall n <- order :: n in names
    ensures FirstNames(Blocks(names, names, order)) == order
  {
    if order != [] {
      var n := |order| - 1;
      var init, last := order[..n], order[n];
      assert order == init + [last];
      LastName(order, init, last, last);
      FirstNamesOfBlocks(names, init);
      OfOneName(names, last);
      FirstNamesOfBlock(Blocks(names, names, init), ByName(names, names, last), last);
    }
  }

  /** The lists by name, and the order of the names, are the same after regrouping. */
  lemma RegroupKeeps<T>(items: seq<T>, names: seq<string>, name: string)
    requires |items| == |names|
    ensures |Regroup(items, names)| == |Regroup(names, names)|
    ensures FirstNames(Regroup(names, names)) == FirstNames(names)
    ensures ByName(Regroup(items, names), Regroup(names, names), name) == ByName(items, names, name)
  {
    FirstNamesAre(names);
    FirstNamesOfBlocks(names, FirstNames(names));
    ByNameOfBlocks(items, names, FirstNames(names), name);
    if name !in names {
      NoneByName(items, names, name);
    }
  }

  lemma {:induction false} NoneByName<T>(items: seq<T>, names: seq<string>, name: string)
    requires |items| == |names| && name !in names
    ensures ByName(items, names, name) == []
  {
    if names != [] {
      NoneByName(items[..|names| - 1], names[..|names| - 1], name);
    }
  }

  // ----- Regrouping loses nothing -----

  function Total<T>(items: seq<T>, weight: T -> nat): nat
  {
    if items == [] then 0 else Total(items[..|items| - 1], weight) + weight(items[|items| - 1])
  }

  lemma {:induction false} TotalConcat<T>(a: seq<T>, b: seq<T>, weight: T -> nat)
    ensures Total(a + b, weight) == Total(a, weight) + Total(b, weight)
  {
    if b == [] {
      assert a + b == a;
    } else {
      var n := |b| - 1;
      assert (a + b)[..|a| + n] == a + b[..n];
      TotalConcat(a, b[..n], weight);
    }
  }

  lemma TotalMore<T>(items: seq<T>, x: T, weight: T -> nat)
    ensures Total(items + [x], weight) == Total(items, weight) + weight(x)
  {
    assert (items + [x])[..|items|] == items;
  }

  lemma ByNameMore<T>(items: seq<T>, names: seq<string>, x: T, m: string, name: string)
    requires |items| == |names|
    ensures ByName(items + [x], names + [m], name) == ByName(items, names, name) + if m == name then [x] else []
  {
    assert (items + [x])[..|items|] == items && (names + [m])[..|names|] == names;
  }

  lemma {:induction false} BlocksMore<T>(items: seq<T>, names: seq<string>, x: T, m: string, order: seq<string>,
                                         weight: T -> nat)
    requires |items| == |names| && Distinct(order)
    ensures Total(Blocks(items + [x], names + [m], order), weight) ==
            Total(Blocks(items, names, order), weight) + if m in order then weight(x) else 0
  {
    if order != [] {
      var init, last := order[..|order| - 1], order[|order| - 1];
      assert order == init + [last];
      LastName(order, init, last, m);
      BlocksMore(items, names, x, m, init, weight);
      ByNameMore(items, names, x, m, last);
      if m == last {
        TotalMore(ByName(items, names, last), x, weight);
      } else {
        assert ByName(items, names, last) + [] == ByName(items, names, last);
      }
      TotalConcat(Blocks(items, names, init), ByName(items, names, last), weight);
      TotalConcat(Blocks(items + [x], names + [m], init), ByName(items + [x], names + [m], last), weight);
    }
  }

  /** Whatever is counted, there is as much of it after regrouping. */
  lemma {:induction false} RegroupTotal<T>(items: seq<T>, names: seq<string>, weight: T -> nat)
    requires |items| == |names|
    ensures Total(Regroup(items, names), weight) == Total(items, weight)
  {
    if items != [] {
      var n := |items| - 1;
      var items', names', x, m := items[..n], names[..n], items[n], names[n];
      assert items == items' + [x] && names == names' + [m];
      var order := FirstNames(names');
      RegroupTotal(items', names', weight);
      FirstNamesAre(names');
      BlocksMore(items', names', x, m, order, weight);
      if m !in order {
        NewBlock(items', names', x, m, order);
        TotalConcat(Blocks(items, names, order), [x], weight);
        TotalMore([], x, weight);
        assert [] + [x] == [x];
      }
    }
  }

  lemma NewBlock<T>(items: seq<T>, names: seq<string>, x: T, m: string, order: seq<string>)
    requires |items| == |names| && m !in names
    ensures Blocks(items + [x], names + [m], order + [m]) == Blocks(items + [x], names + [m], order) + [x]
  {
    NoneByName(items, names, m);
    ByNameMore(items, names, x, m, m);
    assert (order + [m])[..|order|] == order;
  }

  lemma {:induction false} TotalOnes<T>(items: seq<T>, weight: T -> nat)
    requires forall x :: weight(x) == 1
    ensures Total(items, weight) == |items|
  {
    if items != [] {
      TotalOnes(items[..|items| - 1], weight);
    }
  }

  lemma {:induction false} ByNameMember<T>(items: seq<T>, names: seq<string>, name: string, x: T)
    requires |items| == |names| && x in ByName(items, names, name)
    ensures x in items
  {
    var n := |items| - 1;
    if x in ByName(items[..n], names[..n], name) {
      ByNameMember(items[..n], names[..n], name, x);
    }
  }

  lemma {:induction false} BlocksMember<T>(items: seq<T>, names: seq<string>, order: seq<string>, x: T)
    requires |items| == |names| && x in Blocks(items, names, order)
    ensures x in items
  {
    var n := |order| - 1;
    if x in Blocks(items, names, order[..n]) {
      BlocksMember(items, names, order[..n], x);
    } else {
      ByNameMember(items, names, order[n], x);
    }
  }

  lemma {:induction false} BlocksSame<T>(a: seq<T>, an: seq<string>, b: seq<T>, bn: seq<string>, order: seq<string>)
    requires |a| == |an| && |b| == |bn| && forall name :: ByName(a, an, name) == ByName(b, bn, name)
    ensures Blocks(a, an, order) == Blocks(b, bn, order)
  {
    if order != [] {
      BlocksSame(a, an, b, bn, order[..|order| - 1]);
    }
  }

  lemma {:induction false} FirstOfFirstNames(names: seq<string>)
    requires names != []
    ensures FirstNames(names) != [] && FirstNames(names)[0] == names[0]
  {
    if |names| > 1 {
      FirstOfFirstNames(names[..|names| - 1]);
    } else {
      assert names[..0] == [];
    }
  }

  /** Items with the same names in the same places are the same if their lists by name are. */
  lemma {:induction false} SameByNames<T>(a: seq<T>, b: seq<T>, names: seq<string>)
    requires |a| == |b| == |names| && forall name :: ByName(a, names, name) == ByName(b, names, name)
    ensures a == b
  {
    if names != [] {
      var n := |names| - 1;
      assert a == a[..n] + [a[n]] && b == b[..n] + [b[n]] && names == names[..n] + [names[n]];
      forall name
        ensures ByName(a[..n], names[..n], name) == ByName(b[..n], names[..n], name)
      {
        SameButLast(a[..n], b[..n], names[..n], a[n], b[n], names[n], name);
      }
      SameButLast(a[..n], b[..n], names[..n], a[n], b[n], names[n], names[n]);
      SameByNames(a[..n], b[..n], names[..n]);
    }
  }

  lemma SameButLast<T>(a: seq<T>, b: seq<T>, names: seq<string>, x: T, y: T, m: string, name: string)
    requires |a| == |b| == |names| && ByName(a + [x], names + [m], name) == ByName(b + [y], names + [m], name)
    ensures ByName(a, names, name) == ByName(b, names, name) && (m == name ==> x == y)
  {
    ByNameMore(a, names, x, m, name);
    ByNameMore(b, names, y, m, name);
    var s, t := ByName(a, names, name), ByName(b, names, name);
    if m == name {
      assert (s + [x])[..|s|] == s && (t + [y])[..|t|] == t;
      assert (s + [x])[|s|] == x && (t + [y])[|t|] == y;
    } else {
      assert s + [] == s && t + [] == t;
    }
  }
}
