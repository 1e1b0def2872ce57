/** The template sampler: a number of training lines (and optionally of test
    lines) drawn with replacement, written under the header `hts\tma`. */
module SamplesTemplate {
  import opened Wrappers

  /** The items `random.choice` draws: the `i`-th call picks the item at
      position `choice(i)`, taken modulo the length of the list. */
  function Picks(items: seq<string>, count: int, choice: nat -> nat): (picked: seq<string>)
    requires count <= 0 || |items| > 0
    ensures |picked| == Max0(count)
    ensures forall i :: 0 <= i < |picked| ==> picked[i] in items
  {
    seq(Max0(count), i requires 0 <= i < Max0(count) => items[choice(i) % |items|])
  }

  /** `pick_random_samples` draws until it has `count` items.
      `random.choice` fails on an empty list, so a positive count needs a
      non-empty list; a count of zero or less draws nothing. */
  method PickRandomSamples(items: seq<string>, count: int, choice: nat -> nat) returns (picked: seq<string>)
    requires count <= 0 || |items| > 0
    ensures picked == Picks(items, count, choice)
  {
    picked := [];
    while |picked| < count
      invariant |picked| <= Max0(count)
      invariant picked == Picks(items, count, choice)[..|picked|]
      decreases count - |picked|
    {
      picked := picked + [items[choice(|picked|) % |items|]];
    }
  }

  /** The first position of `x` in `items`. */
  function IndexOf(items: seq<string>, x: string): (k: nat)
    requires x in items
    ensures k < |items| && items[k] == x
    decreases |items|
  {
    if items[0] == x then 0 else 1 + IndexOf(items[1..], x)
  }

  /** Drawing is with replacement: any sequence of items of the list, with
      or without repeats, is what some sequence of draws picks. */
  lemma EveryDrawIsReachable(items: seq<string>, wanted: seq<string>)
    requires |items| > 0
    requires forall i :: 0 <= i < |wanted| ==> wanted[i] in items
    ensures exists choice: nat -> nat :: Picks(items, |wanted|, choice) == wanted
  {
    var choice := (i: nat) => if i < |wanted| then IndexOf(items, wanted[i]) else 0;
    var picked := Picks(items, |wanted|, choice);
    forall i | 0 <= i < |wanted|
      ensures picked[i] == wanted[i]
    {
      assert choice(i) == IndexOf(items, wanted[i]);
      assert choice(i) % |items| == choice(i);
    }
    assert picked == wanted;
  }

  /** The count check of the main block: the counts are valid iff the training
      count does not exceed the training lines and, when a test file is given, the
      test count does not exceed the test lines. */
  predicate ValidCounts(trainLines: seq<string>, testLines: Option<seq<string>>, noTrain: int, noTest: int)
  {
    noTrain <= |trainLines| && (testLines.Some? ==> noTest <= |testLines.value|)
  }

  /** The samples file: the header, the training lines, then the test lines
      when there is a test file. */
  function Template(training: seq<string>, test: Option<seq<string>>): (lines: seq<string>)
    ensures |lines| == 1 + |training| + (if test.Some? then |test.value| else 0)
    ensures lines[0] == SamplesHeader
    ensures lines[1..1 + |training|] == training
    ensures test.Some? ==> lines[1 + |training|..] == test.value
    ensures test.None? ==> |lines| == 1 + |training|
  {
    [SamplesHeader] + training + (if test.Some? then test.value else [])
  }

  /** The main block of the script. `trainLines` and `testLines` are the stripped
      lines of the two files (`None` when no test file is given); `choice` is the
      index `random.choice` draws on each call, the training draws first and the
      test draws after them. Invalid counts stop the script before anything is
      written. */
  method CreateSamplesTemplate(trainLines: seq<string>, testLines: Option<seq<string>>, noTrain: int, noTest: int,
                               choice: nat -> nat)
    returns (out: Option<seq<string>>)
    ensures out.None? <==> !ValidCounts(trainLines, testLines, noTrain, noTest)
    ensures out.Some? ==>
              out.value == Template(Picks(trainLines, noTrain, choice),
                                    if testLines.Some?
                                    then Some(Picks(testLines.value, noTest, i => choice(Max0(noTrain) + i)))
                                    else None)
  {
    if !(noTrain <= |trainLines|) || (testLines.Some? && !(noTest <= |testLines.value|)) {
      return None;
    }
    var trainingSamples := PickRandomSamples(trainLines, noTrain, choice);
    var testSamples := [];
    if testLines.Some? {
      testSamples := PickRandomSamples(testLines.value, noTest, i => choice(Max0(noTrain) + i));
    }
    var lines := [SamplesHeader];
    for k := 0 to |trainingSamples|
      invariant lines == [SamplesHeader] + trainingSamples[..k]
    {
      lines := lines + [trainingSamples[k]];
    }
    if testLines.Some? {
      for k := 0 to |testSamples|
        invariant lines == [SamplesHeader] + trainingSamples + testSamples[..k]
      {
        lines := lines + [testSamples[k]];
      }
    }
    out := Some(lines);
  }
}
