/** The script that prepares a tissue's samples file: it draws a random
    training set and test set of RNA-Seq sample names and writes one row per
    sample with the name of its microarray sample. */
module GtexSampleNames {
  import opened Wrappers
  import opened Text
  import opened RecordIndex

  /** Python's `list.remove(x)`: one occurrence of `x` is dropped
      (`RemoveFirstCounts`), the first one (`RemoveFirstIsFirst`). */
  function RemoveFirst(s: seq<string>, x: string): seq<string>
    requires x in s
    decreases |s|
  {
    if s[0] == x then s[1..]
    else [s[0]] + RemoveFirst(s[1..], x)
  }

  /** `list.remove(x)` shortens the list by one and takes away one `x`. */
  lemma {:induction false} RemoveFirstCounts(s: seq<string>, x: string)
    requires x in s
    ensures |RemoveFirst(s, x)| == |s| - 1
    ensures multiset(RemoveFirst(s, x)) == multiset(s) - multiset{x}
    decreases |s|
  {
    assert s == [s[0]] + s[1..];
    assert multiset(s) == multiset{s[0]} + multiset(s[1..]);
    if s[0] != x {
      RemoveFirstCounts(s[1..], x);
    }
  }

  /** The occurrence `list.remove` drops is the first one. */
  lemma {:induction false} RemoveFirstIsFirst(s: seq<string>, x: string, i: nat)
    requires i < |s| && s[i] == x
    requires forall k :: 0 <= k < i ==> s[k] != x
    ensures RemoveFirst(s, x) == s[..i] + s[i + 1..]
    decreases i
  {
    if i > 0 {
      var t := s[1..];
      assert s[0] != x;
      RemoveFirstIsFirst(t, x, i - 1);
      calc {
        RemoveFirst(s, x);
        [s[0]] + RemoveFirst(t, x);
        [s[0]] + (t[..i - 1] + t[i..]);
        ([s[0]] + t[..i - 1]) + t[i..];
        { assert [s[0]] + t[..i - 1] == s[..i]; assert t[i..] == s[i + 1..]; }
        s[..i] + s[i + 1..];
      }
    }
  }

  /** The list of sample names `pick_samples` draws from; the caller's list
      is changed in place. */
  class NameList {
    var items: seq<string>

    constructor (items: seq<string>)
      ensures this.items == items
    {
      this.items := items;
    }

    /** `list.remove(x)`; `x` is present at every call in this script. */
    method Remove(x: string)
      requires x in items
      modifies this
      ensures items == RemoveFirst(old(items), x)
    {
      items := RemoveFirst(items, x);
    }

    /** `list.append(x)`. */
    method Append(x: string)
      modifies this
      ensures items == old(items) + [x]
    {
      items := items + [x];
    }
  }

  /** How many more samples the two sets still need. */
  function Deficit(noTrain: int, noTest: int, train: seq<string>, test: seq<string>): nat
  {
    Max0(noTrain - |train|) + Max0(noTest - |test|)
  }

  /** The requested set sizes fit in the pool. */
  predicate Fits(noTrain: int, noTest: int, pool: seq<string>)
  {
    Max0(noTrain) + Max0(noTest) <= |pool|
  }

  /** What `pick_samples` works on: the caller's list and the two sets. */
  datatype PickState = PickState(names: seq<string>, train: seq<string>, test: seq<string>)

  /** The two picks of one iteration and the list after them. */
  datatype DrawResult = DrawResult(pick1: string, pick2: string, names: seq<string>)

  /** The draw step of `pick_samples` on the list `items`: `pick1` is the
      item at index `i1`; it is taken out unless it is the only name;
      `pick2` is the item at index `i2` of what is left; `pick1` is put back
      at the end. */
  function Draw(items: seq<string>, i1: nat, i2: nat): (d: DrawResult)
    requires |items| > 0
    ensures d.pick1 == items[i1 % |items|]
  {
    var pick1 := items[i1 % |items|];
    RemoveFirstCounts(items, pick1);
    var rest := if |items| > 1 then RemoveFirst(items, pick1) else items;
    DrawResult(pick1, rest[i2 % |rest|], rest + [pick1])
  }

  /** The list after the draws holds both picks and only names of `items`;
      it has lost no name, and a single remaining name is counted twice. */
  lemma DrawFacts(items: seq<string>, i1: nat, i2: nat)
    requires |items| > 0
    ensures var d := Draw(items, i1, i2);
            && d.pick1 in items
            && multiset{d.pick1, d.pick2} <= multiset(d.names)
            && multiset(d.names) == multiset(items) + Spare(items, d.pick1)
            && forall x :: x in d.names ==> x in items
  {
    var d := Draw(items, i1, i2);
    RemoveFirstCounts(items, d.pick1);
    var rest := if |items| > 1 then RemoveFirst(items, d.pick1) else items;
    TwoDrawn(items, d.pick1, d.pick2, rest + [d.pick1]);
  }

  /** The assignment step of `pick_samples`: the training set, when below
      its target, takes `first` out of the list, then the test set, when
      below its target, takes `second`. */
  function AssignTo(s: PickState, noTrain: int, noTest: int, first: string, second: string): (r: PickState)
    requires first in s.names && second in s.names && second in RemoveFirst(s.names, first)
    ensures |r.train| == if |s.train| < noTrain then |s.train| + 1 else |s.train|
    ensures |r.test| == if |s.test| < noTest then |s.test| + 1 else |s.test|
  {
    var afterTrain := if |s.train| < noTrain then RemoveFirst(s.names, first) else s.names;
    PickState(if |s.test| < noTest then RemoveFirst(afterTrain, second) else afterTrain,
              if |s.train| < noTrain then s.train + [first] else s.train,
              if |s.test| < noTest then s.test + [second] else s.test)
  }

  /** One iteration of the loop of `pick_samples`: the two draws at indexes
      `i1` and `i2`, then the assignment, the first pick going to the
      training set iff `trainFirst`. */
  function Round(s: PickState, noTrain: int, noTest: int, i1: nat, i2: nat, trainFirst: bool): (r: PickState)
    requires |s.names| > 0
    ensures |r.train| == if |s.train| < noTrain then |s.train| + 1 else |s.train|
    ensures |r.test| == if |s.test| < noTest then |s.test| + 1 else |s.test|
  {
    DrawFacts(s.names, i1, i2);
    var d := Draw(s.names, i1, i2);
    var first := if trainFirst then d.pick1 else d.pick2;
    var second := if trainFirst then d.pick2 else d.pick1;
    assert multiset{first, second} == multiset{d.pick1, d.pick2};
    OtherStillThere(d.names, first, second);
    AssignTo(PickState(d.names, s.train, s.test), noTrain, noTest, first, second)
  }

  /** The outcome of `pick_samples`: whether it finished, and the final
      state. */
  datatype Picked = Picked(ok: bool, state: PickState)

  /** The loop of `pick_samples` from iteration `k` on: iteration `k` draws
      with indexes `choice(2 * k)` and `choice(2 * k + 1)` and sends the
      first pick to the training set unless `coin(k)`
      (`random.random() < 0.5`); the loop stops when both sets are full, and
      fails when `random.choice` meets an empty list. */
  function Draws(s: PickState, noTrain: int, noTest: int, choice: nat -> nat, coin: nat -> bool, k: nat): Picked
    decreases Deficit(noTrain, noTest, s.train, s.test)
  {
    if !(|s.train| < noTrain || |s.test| < noTest) then Picked(true, s)
    else if |s.names| == 0 then Picked(false, s)
    else Draws(Round(s, noTrain, noTest, choice(2 * k), choice(2 * k + 1), !coin(k)), noTrain, noTest, choice, coin, k + 1)
  }

  /** `pick_samples`. Iteration `k` draws `pick1` with index
      `choice(2 * k)` and `pick2` with index `choice(2 * k + 1)`, each
      reduced modulo the list's length, and puts `pick1` first into the
      training set unless `coin(k)` (`random.random() < 0.5`). `ok` is false
      when `random.choice` meets an empty list. When the sizes fit the pool
      the draw always succeeds, gives each set its size, and takes no name
      more often than the pool holds it; when a single name is left for the
      last draw, that name is put into a set and also stays in the list. */
  method PickSamples(names: NameList, noTrain: int, noTest: int, choice: nat -> nat, coin: nat -> bool)
    returns (ok: bool, train: seq<string>, test: seq<string>)
    modifies names
    ensures ok ==> |train| == Max0(noTrain) && |test| == Max0(noTest)
    ensures Fits(noTrain, noTest, old(names.items)) ==> ok
    ensures (noTrain <= 0 || noTest <= 0) && |old(names.items)| > 0 ==> ok
    ensures |old(names.items)| == 0 && Deficit(noTrain, noTest, [], []) > 0 ==> !ok
    ensures forall i :: 0 <= i < |train| ==> train[i] in old(names.items)
    ensures forall i :: 0 <= i < |test| ==> test[i] in old(names.items)
    ensures forall i :: 0 <= i < |names.items| ==> names.items[i] in old(names.items)
    ensures Fits(noTrain, noTest, old(names.items)) ==>
              || multiset(names.items) + multiset(train) + multiset(test) == multiset(old(names.items))
              || (multiset(train) + multiset(test) == multiset(old(names.items)) && |names.items| == 1)
    ensures Draws(PickState(old(names.items), [], []), noTrain, noTest, choice, coin, 0)
            == Picked(ok, PickState(names.items, train, test))
  {
    ghost var pool := names.items;
    ghost var extra: multiset<string> := multiset{};
    ghost var outcome := Draws(PickState(pool, [], []), noTrain, noTest, choice, coin, 0);
    train, test := [], [];
    var k := 0;
    while |train| < noTrain || |test| < noTest
      invariant PickInvariant(pool, noTrain, noTest, names.items, train, test, extra)
      invariant Draws(PickState(names.items, train, test), noTrain, noTest, choice, coin, k) == outcome
      decreases Deficit(noTrain, noTest, train, test)
    {
      if |names.items| == 0 {
        return false, train, test;
      }
      train, test, extra := PickRound(names, pool, extra, noTrain, noTest, train, test,
                                      choice(2 * k), choice(2 * k + 1), !coin(k), choice, coin, k);
      k := k + 1;
    }
    Cancel(multiset(names.items), multiset(train) + multiset(test), multiset(pool), extra);
    ok := true;
  }

  /** The loop ends with both sets full, or fails on an empty list with a
      set still short; the sets only grow, each drawn name appended at the
      end. */
  lemma {:induction false} DrawsOutcome(s: PickState, noTrain: int, noTest: int, choice: nat -> nat, coin: nat -> bool, k: nat)
    ensures var p := Draws(s, noTrain, noTest, choice, coin, k);
            && (p.ok <==> |p.state.train| >= noTrain && |p.state.test| >= noTest)
            && (!p.ok ==> p.state.names == [])
            && s.train <= p.state.train && s.test <= p.state.test
    decreases Deficit(noTrain, noTest, s.train, s.test)
  {
    if (|s.train| < noTrain || |s.test| < noTest) && |s.names| > 0 {
      var s' := Round(s, noTrain, noTest, choice(2 * k), choice(2 * k + 1), !coin(k));
      DrawsOutcome(s', noTrain, noTest, choice, coin, k + 1);
      assert s.train <= s'.train && s.test <= s'.test;
    }
  }

  /** An iteration that has names to draw from and a set to fill moves
      `Draws` on to the next iteration. */
  lemma DrawsStep(s: PickState, noTrain: int, noTest: int, choice: nat -> nat, coin: nat -> bool, k: nat)
    requires |s.names| > 0 && (|s.train| < noTrain || |s.test| < noTest)
    ensures Draws(s, noTrain, noTest, choice, coin, k)
            == Draws(Round(s, noTrain, noTest, choice(2 * k), choice(2 * k + 1), !coin(k)), noTrain, noTest, choice, coin, k + 1)
  {
  }

  /** The invariant of the loop of `pick_samples`, over the original list
      `pool`, the current list `items` and the names `extra` drawn a second
      time from a single remaining name. */
  ghost predicate PickInvariant(pool: seq<string>, noTrain: int, noTest: int, items: seq<string>,
                                train: seq<string>, test: seq<string>, extra: multiset<string>)
  {
    && |train| <= Max0(noTrain) && |test| <= Max0(noTest)
    && multiset(items) + multiset(train) + multiset(test) == multiset(pool) + extra
    && (forall i :: 0 <= i < |train| ==> train[i] in pool)
    && (forall i :: 0 <= i < |test| ==> test[i] in pool)
    && (forall i :: 0 <= i < |items| ==> items[i] in pool)
    && (Fits(noTrain, noTest, pool) ==> |items| >= Deficit(noTrain, noTest, train, test))
    && (Fits(noTrain, noTest, pool) ==>
          || extra == multiset{}
          || (Deficit(noTrain, noTest, train, test) == 0 && extra == multiset(items) && |items| == 1))
    && (|pool| == 0 ==> train == [] && test == [] && items == [])
    && ((noTrain <= 0 || noTest <= 0) && |pool| > 0 ==> |items| > 0)
  }

  /** One iteration of the loop keeps its invariant and lowers the deficit. */
  lemma PickStep(pool: seq<string>, noTrain: int, noTest: int, items: seq<string>, train: seq<string>,
                 test: seq<string>, extra: multiset<string>,
                 items': seq<string>, train': seq<string>, test': seq<string>, drawn: string)
    requires PickInvariant(pool, noTrain, noTest, items, train, test, extra)
    requires |items| > 0 && (|train| < noTrain || |test| < noTest)
    requires drawn in items && (|items| == 1 ==> drawn == items[0])
    requires if |train| < noTrain then |train'| == |train| + 1 && train'[..|train|] == train && train'[|train|] in items
             else train' == train
    requires if |test| < noTest then |test'| == |test| + 1 && test'[..|test|] == test && test'[|test|] in items
             else test' == test
    requires multiset(items') + multiset(train') + multiset(test')
             == multiset(items) + multiset(train) + multiset(test) + Spare(items, drawn)
    requires |items'| + |train'| + |test'| == |items| + |train| + |test| + |Spare(items, drawn)|
    requires forall i :: 0 <= i < |items'| ==> items'[i] in items
    ensures PickInvariant(pool, noTrain, noTest, items', train', test', extra + Spare(items, drawn))
    ensures Deficit(noTrain, noTest, train', test') < Deficit(noTrain, noTest, train, test)
  {
  }

  lemma Cancel(a: multiset<string>, b: multiset<string>, c: multiset<string>, e: multiset<string>)
    requires a + b == c + e
    ensures e == a ==> b == c
  {
    if e == a {
      forall x
        ensures b[x] == c[x]
      {
        assert (a + b)[x] == (c + e)[x];
      }
    }
  }

  /** One iteration of the loop of `pick_samples`, with the loop's invariant:
      the round leaves the list and the sets `Round` defines, keeps the invariant
      (the names put back by the draws added to `extra`) and lowers the
      number of names still needed. */
  method PickRound(names: NameList, ghost pool: seq<string>, ghost extra: multiset<string>, noTrain: int, noTest: int,
                   train: seq<string>, test: seq<string>, i1: nat, i2: nat, trainFirst: bool,
                   ghost choice: nat -> nat, ghost coin: nat -> bool, ghost k: nat)
    returns (train': seq<string>, test': seq<string>, ghost extra': multiset<string>)
    requires PickInvariant(pool, noTrain, noTest, names.items, train, test, extra)
    requires |names.items| > 0 && (|train| < noTrain || |test| < noTest)
    requires i1 == choice(2 * k) && i2 == choice(2 * k + 1) && trainFirst == !coin(k)
    modifies names
    ensures PickInvariant(pool, noTrain, noTest, names.items, train', test', extra')
    ensures Deficit(noTrain, noTest, train', test') < Deficit(noTrain, noTest, train, test)
    ensures PickState(names.items, train', test') == Round(PickState(old(names.items), train, test), noTrain, noTest, i1, i2, trainFirst)
    ensures Draws(PickState(names.items, train', test'), noTrain, noTest, choice, coin, k + 1)
            == Draws(PickState(old(names.items), train, test), noTrain, noTest, choice, coin, k)
  {
    ghost var before := names.items;
    ghost var drawn;
    train', test', drawn := DrawRound(names, noTrain, noTest, train, test, i1, i2, trainFirst);
    PickStep(pool, noTrain, noTest, before, train, test, extra, names.items, train', test', drawn);
    DrawsStep(PickState(before, train, test), noTrain, noTest, choice, coin, k);
    extra' := extra + Spare(before, drawn);
  }


  /** One iteration of the loop of `pick_samples`, with draw
      indexes `i1` and `i2`. Each set that is not full gains one name, the
      first drawn one going to the training set iff `trainFirst`; the names
      given out leave the list, except that a single remaining name, `drawn`,
      is drawn twice and put back once. */
  method DrawRound(names: NameList, noTrain: int, noTest: int, train: seq<string>, test: seq<string>,
                   i1: nat, i2: nat, trainFirst: bool)
    returns (train': seq<string>, test': seq<string>, ghost drawn: string)
    requires |names.items| > 0
    modifies names
    ensures PickState(names.items, train', test') == Round(PickState(old(names.items), train, test), noTrain, noTest, i1, i2, trainFirst)
    ensures drawn == Draw(old(names.items), i1, i2).pick1
    ensures drawn in old(names.items) && (|old(names.items)| == 1 ==> drawn == old(names.items)[0])
    ensures if |train| < noTrain then |train'| == |train| + 1 && train'[..|train|] == train && train'[|train|] in old(names.items)
            else train' == train
    ensures if |test| < noTest then |test'| == |test| + 1 && test'[..|test|] == test && test'[|test|] in old(names.items)
            else test' == test
    ensures multiset(names.items) + multiset(train') + multiset(test')
            == multiset(old(names.items)) + multiset(train) + multiset(test) + Spare(old(names.items), drawn)
    ensures |names.items| + |train'| + |test'| == |old(names.items)| + |train| + |test| + |Spare(old(names.items), drawn)|
    ensures forall i :: 0 <= i < |names.items| ==> names.items[i] in old(names.items)
  {
    ghost var before := names.items;
    var pick1, pick2 := DrawTwo(names, i1, i2);
    drawn := pick1;
    ghost var middle := names.items;
    var first, other := if trainFirst then pick1 else pick2, if trainFirst then pick2 else pick1;
    OtherStillThere(middle, first, other);
    train', test' := Assign(names, noTrain, noTest, train, test, first, other);
    RoundFacts(before, middle, names.items, noTrain, noTest, train, test, train', test', first, other, drawn);
  }

  /** The bookkeeping of one iteration, on the list before the draws, after
      the draws and after the assignment: the names given out come from the
      list, and the names put back by the draws are counted on both sides. */
  lemma RoundFacts(before: seq<string>, middle: seq<string>, after: seq<string>, noTrain: int, noTest: int,
                   train: seq<string>, test: seq<string>, train': seq<string>, test': seq<string>,
                   first: string, other: string, drawn: string)
    requires multiset(middle) == multiset(before) + Spare(before, drawn)
    requires forall x :: x in middle ==> x in before
    requires first in middle && other in middle
    requires train' == if |train| < noTrain then train + [first] else train
    requires test' == if |test| < noTest then test + [other] else test
    requires multiset(after) + multiset(train') + multiset(test') == multiset(middle) + multiset(train) + multiset(test)
    requires forall x :: x in after ==> x in middle
    ensures if |train| < noTrain then |train'| == |train| + 1 && train'[..|train|] == train && train'[|train|] in before
            else train' == train
    ensures if |test| < noTest then |test'| == |test| + 1 && test'[..|test|] == test && test'[|test|] in before
            else test' == test
    ensures multiset(after) + multiset(train') + multiset(test')
            == multiset(before) + multiset(train) + multiset(test) + Spare(before, drawn)
    ensures |after| + |train'| + |test'| == |before| + |train| + |test| + |Spare(before, drawn)|
    ensures forall i :: 0 <= i < |after| ==> after[i] in before
  {
    forall x
      ensures (multiset(after) + multiset(train') + multiset(test'))[x]
              == (multiset(before) + multiset(train) + multiset(test) + Spare(before, drawn))[x]
    {
      assert (multiset(after) + multiset(train') + multiset(test'))[x] == (multiset(middle) + multiset(train) + multiset(test))[x];
    }
    SizesFromCounts(after, train', test', before, train, test, Spare(before, drawn));
    if |train| < noTrain {
      assert train'[..|train|] == train;
    }
    if |test| < noTest {
      assert test'[..|test|] == test;
    }
  }

  /** Lists that hold the same names, counted with repeats, have the same
      total length. */
  lemma SizesFromCounts(after: seq<string>, train': seq<string>, test': seq<string>,
                        before: seq<string>, train: seq<string>, test: seq<string>, spare: multiset<string>)
    requires multiset(after) + multiset(train') + multiset(test') == multiset(before) + multiset(train) + multiset(test) + spare
    ensures |after| + |train'| + |test'| == |before| + |train| + |test| + |spare|
  {
    assert |multiset(after) + multiset(train') + multiset(test')| == |after| + |train'| + |test'|;
    assert |multiset(before) + multiset(train) + multiset(test) + spare| == |before| + |train| + |test| + |spare|;
  }

  /** The assignment step of `pick_samples`: each set that is not full takes its
      name from the list, the training set `first` and the test set `second`. */
  method Assign(names: NameList, noTrain: int, noTest: int, train: seq<string>, test: seq<string>,
                first: string, second: string)
    returns (train': seq<string>, test': seq<string>)
    requires first in names.items && second in names.items && second in RemoveFirst(names.items, first)
    modifies names
    ensures PickState(names.items, train', test') == AssignTo(PickState(old(names.items), train, test), noTrain, noTest, first, second)
    ensures if |train| < noTrain then |train'| == |train| + 1 && train'[..|train|] == train && train'[|train|] in old(names.items)
            else train' == train
    ensures if |test| < noTest then |test'| == |test| + 1 && test'[..|test|] == test && test'[|test|] in old(names.items)
            else test' == test
    ensures multiset(names.items) + multiset(train') + multiset(test') == multiset(old(names.items)) + multiset(train) + multiset(test)
    ensures forall x :: x in names.items ==> x in old(names.items)
  {
    ghost var middle := names.items;
    train', test' := train, test;
    if |train| < noTrain {
      train' := train + [first];
      names.Remove(first);
    }
    ghost var after1 := names.items;
    if |test| < noTest {
      test' := test + [second];
      names.Remove(second);
    }
    Accounting(middle, after1, names.items, first, second, train, train', test, test', |train| < noTrain, |test| < noTest);
    Grown(train, train', first, |train| < noTrain, middle);
    Grown(test, test', second, |test| < noTest, middle);
  }

  /** A set that takes `x` has it appended; otherwise it is unchanged. */
  lemma Grown(chosen: seq<string>, chosen': seq<string>, x: string, take: bool, source: seq<string>)
    requires x in source
    requires chosen' == if take then chosen + [x] else chosen
    ensures if take then |chosen'| == |chosen| + 1 && chosen'[..|chosen|] == chosen && chosen'[|chosen|] in source
            else chosen' == chosen
  {
    if take {
      assert chosen'[..|chosen|] == chosen;
    }
  }

  /** The draw step of `pick_samples`: `pick1` is drawn and taken out unless it is
      the only name, `pick2` is drawn from what is left, and `pick1` is put back
      at the end. The list ends up holding both. */
  method DrawTwo(names: NameList, i1: nat, i2: nat) returns (pick1: string, pick2: string)
    requires |names.items| > 0
    modifies names
    ensures pick1 in old(names.items) && (|old(names.items)| == 1 ==> pick1 == old(names.items)[0])
    ensures DrawResult(pick1, pick2, names.items) == Draw(old(names.items), i1, i2)
    ensures multiset{pick1, pick2} <= multiset(names.items)
    ensures multiset(names.items) == multiset(old(names.items)) + Spare(old(names.items), pick1)
    ensures forall x :: x in names.items ==> x in old(names.items)
  {
    ghost var before := names.items;
    pick1 := names.items[i1 % |names.items|];
    if |names.items| > 1 {
      names.Remove(pick1);
    }
    pick2 := names.items[i2 % |names.items|];
    names.Append(pick1);
    TwoDrawn(before, pick1, pick2, names.items);
  }

  /** The names one `if` of the assignment step gives out. */
  function Given(x: string, take: bool): multiset<string>
  {
    if take then multiset{x} else multiset{}
  }

  /** One set takes `x` from the list, or nothing happens. */
  lemma TakeOne(list: seq<string>, list': seq<string>, chosen: seq<string>, chosen': seq<string>, x: string, take: bool)
    requires take ==> x in list
    requires chosen' == if take then chosen + [x] else chosen
    requires list' == if take then RemoveFirst(list, x) else list
    ensures multiset(list') + Given(x, take) == multiset(list)
    ensures multiset(chosen') == multiset(chosen) + Given(x, take)
  {
    if take {
      RemovedPlus(list, x);
      assert multiset(chosen + [x]) == multiset(chosen) + multiset{x};
    }
  }

  /** The bookkeeping of the assignment step, on the list's successive values. */
  lemma Accounting(middle: seq<string>, after1: seq<string>, after2: seq<string>, first: string, second: string,
                   train: seq<string>, train': seq<string>, test: seq<string>, test': seq<string>,
                   takeTrain: bool, takeTest: bool)
    requires first in middle
    requires train' == if takeTrain then train + [first] else train
    requires after1 == if takeTrain then RemoveFirst(middle, first) else middle
    requires test' == if takeTest then test + [second] else test
    requires takeTest ==> second in after1
    requires after2 == if takeTest then RemoveFirst(after1, second) else after1
    ensures multiset(after2) + multiset(train') + multiset(test') == multiset(middle) + multiset(train) + multiset(test)
    ensures forall x :: x in after2 ==> x in middle
  {
    var given1, given2 := Given(first, takeTrain), Given(second, takeTest);
    TakeOne(middle, after1, train, train', first, takeTrain);
    TakeOne(after1, after2, test, test', second, takeTest);
    forall x
      ensures (multiset(after2) + (given1 + given2))[x] == multiset(middle)[x]
      ensures (multiset(after2) + multiset(train') + multiset(test'))[x] == (multiset(middle) + multiset(train) + multiset(test))[x]
    {
      assert (multiset(after1) + given1)[x] == multiset(middle)[x];
      assert (multiset(after2) + given2)[x] == multiset(after1)[x];
    }
    assert multiset(after2) + (given1 + given2) == multiset(middle);
    Shrunk(middle, after2, given1 + given2);
  }

  /** A removed name and what is left make up the list. */
  lemma RemovedPlus(s: seq<string>, x: string)
    requires x in s
    ensures multiset(RemoveFirst(s, x)) + multiset{x} == multiset(s)
  {
    RemoveFirstCounts(s, x);
    assert x in multiset(s);
  }

  /** The name put back when only one was left to draw. */
  function Spare(before: seq<string>, drawn: string): multiset<string>
  {
    if |before| == 1 then multiset{drawn} else multiset{}
  }

  /** After the two draws of one iteration: the list holds what it held
      before plus, when a single name was left, that name once more; and it
      holds `pick1` and `pick2` together, so both removals find their name. */
  lemma TwoDrawn(before: seq<string>, pick1: string, pick2: string, after: seq<string>)
    requires pick1 in before
    requires |before| > 1 ==> pick2 in RemoveFirst(before, pick1) && after == RemoveFirst(before, pick1) + [pick1]
    requires |before| == 1 ==> pick2 == pick1 && after == before + [pick1]
    ensures multiset{pick1, pick2} <= multiset(after)
    ensures multiset(after) == multiset(before) + Spare(before, pick1)
    ensures |before| == 1 ==> pick1 == before[0]
    ensures forall x :: x in after ==> x in before
  {
    if |before| == 1 {
      OneLeftDrawn(before, pick1, after);
    } else {
      TwoLeftDrawn(before, pick1, pick2, after);
    }
    forall x | x in after
      ensures x in before
    {
      assert x in multiset(after);
    }
  }

  /** A single remaining name is drawn twice and put back once. */
  lemma OneLeftDrawn(before: seq<string>, pick1: string, after: seq<string>)
    requires pick1 in before && |before| == 1 && after == before + [pick1]
    ensures pick1 == before[0]
    ensures multiset(after) == multiset{pick1, pick1}
    ensures multiset(after) == multiset(before) + multiset{pick1}
  {
    assert before == [before[0]];
    assert after == [pick1, pick1];
  }

  /** With two names or more, `pick1` is moved to the end of the list. */
  lemma TwoLeftDrawn(before: seq<string>, pick1: string, pick2: string, after: seq<string>)
    requires pick1 in before && pick2 in RemoveFirst(before, pick1) && after == RemoveFirst(before, pick1) + [pick1]
    ensures multiset{pick1, pick2} <= multiset(after)
    ensures multiset(after) == multiset(before)
  {
    var r := RemoveFirst(before, pick1);
    RemovedPlus(before, pick1);
    assert multiset(after) == multiset(r) + multiset{pick1};
    assert pick2 in multiset(r);
  }

  /** Removing one of two names held together leaves the other. */
  lemma OtherStillThere(s: seq<string>, a: string, b: string)
    requires multiset{a, b} <= multiset(s)
    ensures a in s && b in s && b in RemoveFirst(s, a)
  {
    assert a in multiset(s) && b in multiset(s);
    RemoveFirstCounts(s, a);
    assert b in multiset(RemoveFirst(s, a));
  }

  /** Removals keep only names the list held. */
  lemma Shrunk(middle: seq<string>, after: seq<string>, given: multiset<string>)
    requires multiset(after) + given == multiset(middle)
    ensures forall x :: x in after ==> x in middle
  {
    assert multiset(after) <= multiset(middle);
    forall x | x in after
      ensures x in middle
    {
      assert x in multiset(after);
      assert x in multiset(middle);
    }
  }

  /** The names of a set of drawn samples that fit the pool come from it
      without repetition beyond the pool's own. */
  lemma DrawnWithinPool(rest: multiset<string>, train: multiset<string>, test: multiset<string>, pool: multiset<string>)
    requires rest + train + test == pool
    ensures train + test <= pool
  {
    assert forall x :: (train + test)[x] <= pool[x] by {
      forall x
        ensures (train + test)[x] <= pool[x]
      {
        assert (rest + train + test)[x] == pool[x];
      }
    }
  }

  /** No name occurs twice in `s`. */
  predicate Distinct(s: seq<string>)
  {
    forall i, j :: 0 <= i < j < |s| ==> s[i] != s[j]
  }

  /** Sets drawn without repetition from a pool of distinct names share no
      name, and neither repeats one. */
  lemma DistinctPoolGivesDisjointSets(pool: seq<string>, train: seq<string>, test: seq<string>)
    requires Distinct(pool)
    requires multiset(train) + multiset(test) <= multiset(pool)
    ensures forall i, j :: 0 <= i < |train| && 0 <= j < |test| ==> train[i] != test[j]
    ensures Distinct(train) && Distinct(test)
  {
    DistinctCountsOne(pool);
    forall i, j | 0 <= i < |train| && 0 <= j < |test|
      ensures train[i] != test[j]
    {
      assert train[i] in multiset(train) && test[j] in multiset(test);
      assert (multiset(train) + multiset(test))[train[i]] <= 1;
      assert (multiset(train) + multiset(test))[test[j]] <= 1;
    }
    forall i, j | 0 <= i < j < |train|
      ensures train[i] != train[j]
    {
      TwoOccurrences(train, i, j);
      assert (multiset(train) + multiset(test))[train[i]] <= 1;
    }
    forall i, j | 0 <= i < j < |test|
      ensures test[i] != test[j]
    {
      TwoOccurrences(test, i, j);
      assert (multiset(train) + multiset(test))[test[i]] <= 1;
    }
  }

  /** In a list of distinct names each name occurs at most once. */
  lemma {:induction false} DistinctCountsOne(s: seq<string>)
    requires Distinct(s)
    ensures forall x :: multiset(s)[x] <= 1
    decreases |s|
  {
    if s != [] {
      assert Distinct(s[1..]);
      DistinctCountsOne(s[1..]);
      assert s == [s[0]] + s[1..];
      assert s[0] !in s[1..];
      assert multiset(s) == multiset{s[0]} + multiset(s[1..]);
    }
  }

  /** A name at two positions occurs at least twice. */
  lemma TwoOccurrences(s: seq<string>, i: int, j: int)
    requires 0 <= i < j < |s|
    ensures s[i] == s[j] ==> multiset(s)[s[i]] >= 2
  {
    assert s == s[..j] + s[j..];
    assert s[i] in s[..j];
    assert multiset(s) == multiset(s[..j]) + multiset(s[j..]);
    assert s[j] in multiset(s[j..]);
  }

  /** `check_for_duplicates` reports a correct file iff no
      name is in both sets. */
  function CheckForDuplicates(train: seq<string>, test: seq<string>): (good: bool)
    ensures good <==> forall i, j :: 0 <= i < |train| && 0 <= j < |test| ==> train[i] != test[j]
  {
    var common := (set x | x in train) * (set x | x in test);
    assert forall i, j :: 0 <= i < |train| && 0 <= j < |test| && train[i] == test[j] ==> train[i] in common;
    |common| == 0
  }

  /** Why the script stops. */
  datatype SampleError =
    | TooFewSamples          // the `ValueError` of the sample count check
    | EmptyChoice            // `random.choice` on an empty list
    | KeyError(key: string)  // a sample name or microarray id without an entry
    | ValueError             // `make_row` for a training row without test rows

  /** The microarray sample name of an RNA-Seq sample: `affy_ids[names[name]]`. */
  function AffyId(name: string, names: map<string, string>, affyIds: map<string, string>): (r: Result<string, SampleError>)
    ensures r.Success? <==> name in names && names[name] in affyIds
    ensures r.Success? ==> r.value == affyIds[names[name]]
    ensures r.Failure? ==> r.error == (if name !in names then KeyError(name) else KeyError(names[name]))
  {
    if name !in names then Failure(KeyError(name))
    else if names[name] !in affyIds then Failure(KeyError(names[name]))
    else Success(affyIds[names[name]])
  }

  /** The first column of a row: the RNA-Seq sample name of a training
      sample, the name starred for a test sample, `*NA` when there are no
      test rows. */
  function Label(name: string, train: bool, testPresent: bool): string
  {
    if train then name else if testPresent then "*" + name else "*NA"
  }

  /** `make_row`. A training row without test rows is not
      handled (`ValueError`), whatever the names; otherwise the row is the
      label, a tab and the microarray sample name. */
  function MakeRow(name: string, names: map<string, string>, affyIds: map<string, string>,
                   train: bool, testPresent: bool): (r: Result<string, SampleError>)
    ensures train && !testPresent ==> r == Failure(ValueError)
    ensures !(train && !testPresent) ==>
              (r.Success? <==> AffyId(name, names, affyIds).Success?)
              && (r.Failure? ==> r.error == AffyId(name, names, affyIds).error)
  {
    if train && testPresent then
      match AffyId(name, names, affyIds)
      case Success(a) => Success(name + "\t" + a)
      case Failure(e) => Failure(e)
    else if !train && testPresent then
      match AffyId(name, names, affyIds)
      case Success(a) => Success("*" + name + "\t" + a)
      case Failure(e) => Failure(e)
    else if !train && !testPresent then
      match AffyId(name, names, affyIds)
      case Success(a) => Success("*NA\t" + a)
      case Failure(e) => Failure(e)
    else Failure(ValueError)
  }

  /** A row read back splits into its two columns: the label and the
      microarray sample name. */
  lemma MakeRowColumns(name: string, names: map<string, string>, affyIds: map<string, string>,
                       train: bool, testPresent: bool)
    requires MakeRow(name, names, affyIds, train, testPresent).Success?
    requires '\t' !in name && '\t' !in affyIds[names[name]]
    ensures Split(MakeRow(name, names, affyIds, train, testPresent).value, '\t')
            == [Label(name, train, testPresent), affyIds[names[name]]]
  {
    var first := Label(name, train, testPresent);
    var a := affyIds[names[name]];
    assert MakeRow(name, names, affyIds, train, testPresent).value == first + "\t" + a;
    assert '\t' !in first by {
      if !train && testPresent {
        assert first == ['*'] + name;
      }
    }
    assert FreeOf([first, a], '\t');
    SplitJoin([first, a], '\t');
    assert Join([first, a], '\t') == first + ['\t'] + Join([a], '\t');
  }

  /** The output so far and, once the script has stopped, why. */
  datatype Listing = Listing(lines: seq<string>, failure: Option<SampleError>)

  /** The rows of `samples`, one per sample, written after `start`; the
      first failing row stops the listing. */
  function RenderRows(start: Listing, samples: seq<string>, names: map<string, string>,
                      affyIds: map<string, string>, train: bool): Listing
    decreases |samples|
  {
    if samples == [] then start
    else
      var prev := RenderRows(start, samples[..|samples| - 1], names, affyIds, train);
      if prev.failure.Some? then prev
      else
        match MakeRow(samples[|samples| - 1], names, affyIds, train, true)
        case Success(line) => prev.(lines := prev.lines + [line])
        case Failure(e) => prev.(failure := Some(e))
  }

  /** Starting from a listing that has not failed, the rows of `samples`
      fail iff some sample has no microarray sample name; otherwise each
      sample has written its row, in order, after the lines already there. */
  lemma {:induction false} RenderRowsOutcome(start: Listing, samples: seq<string>, names: map<string, string>,
                                             affyIds: map<string, string>, train: bool)
    requires start.failure == None
    ensures var out := RenderRows(start, samples, names, affyIds, train);
            (out.failure == None <==> forall i :: 0 <= i < |samples| ==> AffyId(samples[i], names, affyIds).Success?)
    ensures var out := RenderRows(start, samples, names, affyIds, train);
            out.failure == None ==>
              && |out.lines| == |start.lines| + |samples|
              && out.lines[..|start.lines|] == start.lines
              && forall i :: 0 <= i < |samples| ==>
                   out.lines[|start.lines| + i] == Label(samples[i], train, true) + "\t" + affyIds[names[samples[i]]]
    decreases |samples|
  {
    if samples != [] {
      var front := samples[..|samples| - 1];
      RenderRowsOutcome(start, front, names, affyIds, train);
      assert forall i :: 0 <= i < |front| ==> front[i] == samples[i];
      var prev := RenderRows(start, front, names, affyIds, train);
      if prev.failure.Some? {
        var i :| 0 <= i < |front| && !AffyId(front[i], names, affyIds).Success?;
        assert !AffyId(samples[i], names, affyIds).Success?;
      }
    }
  }

  /** Rows are written with test rows present, so a row can fail only for
      a missing key. */
  lemma {:induction false} RenderRowsKeyErrors(start: Listing, samples: seq<string>, names: map<string, string>,
                                               affyIds: map<string, string>, train: bool)
    requires start.failure.Some? ==> start.failure.value.KeyError?
    ensures var out := RenderRows(start, samples, names, affyIds, train);
            out.failure.Some? ==> out.failure.value.KeyError?
    decreases |samples|
  {
    if samples != [] {
      RenderRowsKeyErrors(start, samples[..|samples| - 1], names, affyIds, train);
    }
  }

  /** The name map loops skip no row: every row is indexed. */
  predicate KeepAll(row: Row)
  {
    true
  }

  function SecondField(row: Row): string
    requires |row| >= 2
  {
    row[1]
  }

  /** Every row of a map file has two fields. */
  predicate PairRowsWellFormed(rows: seq<Row>)
  {
    forall i :: 0 <= i < |rows| ==> |rows[i]| >= 2
  }

  /** The name map loops of the main block (once per file): field 0 to field 1, a
      later row replacing an earlier one with the same key. No row is skipped. */
  method BuildNameMap(rows: seq<Row>) returns (m: map<string, string>)
    requires PairRowsWellFormed(rows)
    ensures m == IndexRows(map[], rows, KeepAll, SecondField)
  {
    m := map[];
    var i := 0;
    while i < |rows|
      invariant 0 <= i <= |rows|
      invariant m == IndexRows(map[], rows[..i], KeepAll, SecondField)
    {
      assert rows[..i + 1][..i] == rows[..i];
      m := m[rows[i][0] := rows[i][1]];
      i := i + 1;
    }
    assert rows[..i] == rows;
  }

  /** The writing loops of the main block: the header line, then the training
      rows, then the test rows, stopping at the first failing row. */
  method WriteRows(start: Listing, samples: seq<string>, names: map<string, string>,
                   affyIds: map<string, string>, train: bool) returns (out: Listing)
    ensures out == RenderRows(start, samples, names, affyIds, train)
  {
    out := start;
    if start.failure.Some? {
      RenderRowsFailed(start, samples, names, affyIds, train);
      return;
    }
    var i := 0;
    while i < |samples|
      invariant 0 <= i <= |samples|
      invariant out == RenderRows(start, samples[..i], names, affyIds, train)
      invariant out.failure == None
    {
      assert samples[..i + 1][..i] == samples[..i];
      var row := MakeRow(samples[i], names, affyIds, train, true);
      if row.Failure? {
        out := out.(failure := Some(row.error));
        RenderRowsFailedPrefix(start, samples, i + 1, names, affyIds, train);
        return;
      }
      out := out.(lines := out.lines + [row.value]);
      i := i + 1;
    }
    assert samples[..i] == samples;
  }

  /** A failed listing stays as it is. */
  lemma {:induction false} RenderRowsFailed(start: Listing, samples: seq<string>, names: map<string, string>,
                                            affyIds: map<string, string>, train: bool)
    requires start.failure.Some?
    ensures RenderRows(start, samples, names, affyIds, train) == start
    decreases |samples|
  {
    if samples != [] {
      RenderRowsFailed(start, samples[..|samples| - 1], names, affyIds, train);
    }
  }

  lemma {:induction false} RenderRowsFailedPrefix(start: Listing, samples: seq<string>, k: int, names: map<string, string>,
                                                  affyIds: map<string, string>, train: bool)
    requires 0 <= k <= |samples| && RenderRows(start, samples[..k], names, affyIds, train).failure.Some?
    ensures RenderRows(start, samples, names, affyIds, train) == RenderRows(start, samples[..k], names, affyIds, train)
    decreases |samples| - k
  {
    if k < |samples| {
      assert samples[..k + 1][..k] == samples[..k];
      RenderRowsFailedPrefix(start, samples, k + 1, names, affyIds, train);
    } else {
      assert samples[..k] == samples;
    }
  }

  /** The main block of the script. `rnaseqHeader` is the first line of the
      RNA-Seq file, split on tabs; its fields after the first are the sample
      names. `report` is what `check_for_duplicates` reports (`Some(true)` for the
      "Good" message), `None` when the script stops before it. */
  method PrepareSampleNames(tissueRows: seq<Row>, affyRows: seq<Row>, rnaseqHeader: Row, noTrain: int, noTest: int,
                            choice: nat -> nat, coin: nat -> bool)
    returns (out: Listing, report: Option<bool>, train: seq<string>, test: seq<string>)
    requires PairRowsWellFormed(tissueRows) && PairRowsWellFormed(affyRows) && |rnaseqHeader| >= 1
    ensures |rnaseqHeader| - 1 < noTrain + noTest ==> out == Listing([], Some(TooFewSamples)) && report == None
    ensures |rnaseqHeader| - 1 >= noTrain + noTest && noTrain >= 0 && noTest >= 0 ==> out.failure != Some(EmptyChoice)
    ensures out.failure == Some(EmptyChoice) ==> out.lines == [] && report == None
    ensures |rnaseqHeader| - 1 >= noTrain + noTest && out.failure != Some(EmptyChoice) ==>
              && |train| == Max0(noTrain) && |test| == Max0(noTest)
              && (forall i :: 0 <= i < |train| ==> train[i] in rnaseqHeader[1..])
              && (forall i :: 0 <= i < |test| ==> test[i] in rnaseqHeader[1..])
              && report == Some(CheckForDuplicates(train, test))
              && out == RenderRows(RenderRows(Listing([SamplesHeader], None), train,
                                              IndexRows(map[], tissueRows, KeepAll, SecondField),
                                              IndexRows(map[], affyRows, KeepAll, SecondField), true),
                                   test,
                                   IndexRows(map[], tissueRows, KeepAll, SecondField),
                                   IndexRows(map[], affyRows, KeepAll, SecondField), false)
    ensures |rnaseqHeader| - 1 >= noTrain + noTest && noTrain >= 0 && noTest >= 0 && Distinct(rnaseqHeader[1..]) ==>
              report == Some(true) && Distinct(train) && Distinct(test)
    ensures |rnaseqHeader| - 1 >= noTrain + noTest ==>
              var picked := Draws(PickState(rnaseqHeader[1..], [], []), noTrain, noTest, choice, coin, 0);
              && (out.failure == Some(EmptyChoice) <==> !picked.ok)
              && train == picked.state.train && test == picked.state.test
  {
    var names := BuildNameMap(tissueRows);
    var affyIds := BuildNameMap(affyRows);
    var rnaseqNames := rnaseqHeader[1..];
    if |rnaseqNames| < noTrain + noTest {
      return Listing([], Some(TooFewSamples)), None, [], [];
    }
    var pool := new NameList(rnaseqNames);
    var ok;
    ok, train, test := PickSamples(pool, noTrain, noTest, choice, coin);
    if !ok {
      return Listing([], Some(EmptyChoice)), None, train, test;
    }
    if noTrain >= 0 && noTest >= 0 && Distinct(rnaseqNames) {
      assert Fits(noTrain, noTest, rnaseqNames);
      if multiset(pool.items) + multiset(train) + multiset(test) == multiset(rnaseqNames) {
        DrawnWithinPool(multiset(pool.items), multiset(train), multiset(test), multiset(rnaseqNames));
      }
      DistinctPoolGivesDisjointSets(rnaseqNames, train, test);
    }
    report := Some(CheckForDuplicates(train, test));
    out := Listing([SamplesHeader], None);
    out := WriteRows(out, train, names, affyIds, true);
    out := WriteRows(out, test, names, affyIds, false);
    RenderRowsKeyErrors(Listing([SamplesHeader], None), train, names, affyIds, true);
    RenderRowsKeyErrors(RenderRows(Listing([SamplesHeader], None), train, names, affyIds, true), test, names, affyIds, false);
  }
}
