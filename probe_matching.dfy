/** The last stage of the microarray script: for every gene probe set and
    each of its exon probe sets, the probes with equal sequences are paired,
    and each pair writes the gene intensity row, the exon intensity row
    renamed into the gene probe set's identifiers, and the exon probe id. */
module ProbeMatching {
  import opened Wrappers
  import opened RecordIndex
  import opened ProbeFiles
  import opened ProbesetMapping

  /** The pairs of one gene probe with the exon probes of equal sequence, in
      exon probe order. */
  function PairsWith(g: Probe, huexProbes: seq<Probe>): seq<(Probe, Probe)>
    decreases |huexProbes|
  {
    if huexProbes == [] then []
    else
      (if SameProbe(g, huexProbes[0]) then [(g, huexProbes[0])] else [])
      + PairsWith(g, huexProbes[1..])
  }

  /** All equal-sequence combinations, gene probes outer, exon probes inner. */
  function SimilarPairs(hugeProbes: seq<Probe>, huexProbes: seq<Probe>): seq<(Probe, Probe)>
    decreases |hugeProbes|
  {
    if hugeProbes == [] then []
    else PairsWith(hugeProbes[0], huexProbes) + SimilarPairs(hugeProbes[1..], huexProbes)
  }

  lemma {:induction false} PairsWithExact(g: Probe, huexProbes: seq<Probe>, a: Probe, b: Probe)
    ensures (a, b) in PairsWith(g, huexProbes) <==> a == g && b in huexProbes && SameProbe(a, b)
    decreases |huexProbes|
  {
    if huexProbes != [] {
      PairsWithExact(g, huexProbes[1..], a, b);
      assert huexProbes == [huexProbes[0]] + huexProbes[1..];
    }
  }

  /** The pairs are exactly the combinations of a gene probe and an exon
      probe whose sequences are equal. */
  lemma {:induction false} SimilarPairsExact(hugeProbes: seq<Probe>, huexProbes: seq<Probe>, a: Probe, b: Probe)
    ensures (a, b) in SimilarPairs(hugeProbes, huexProbes) <==> a in hugeProbes && b in huexProbes && SameProbe(a, b)
    decreases |hugeProbes|
  {
    if hugeProbes != [] {
      PairsWithExact(hugeProbes[0], huexProbes, a, b);
      SimilarPairsExact(hugeProbes[1..], huexProbes, a, b);
      assert hugeProbes == [hugeProbes[0]] + hugeProbes[1..];
    }
  }

  lemma {:induction false} PairsWithAppend(g: Probe, e1: seq<Probe>, e2: seq<Probe>)
    ensures PairsWith(g, e1 + e2) == PairsWith(g, e1) + PairsWith(g, e2)
    decreases |e1|
  {
    if e1 != [] {
      assert (e1 + e2)[0] == e1[0] && (e1 + e2)[1..] == e1[1..] + e2;
      PairsWithAppend(g, e1[1..], e2);
    } else {
      assert e1 + e2 == e2;
    }
  }

  /** Splitting the gene probes splits the pairs: gene probes are the outer
      loop. */
  lemma {:induction false} SimilarPairsAppend(g1: seq<Probe>, g2: seq<Probe>, huexProbes: seq<Probe>)
    ensures SimilarPairs(g1 + g2, huexProbes) == SimilarPairs(g1, huexProbes) + SimilarPairs(g2, huexProbes)
    decreases |g1|
  {
    if g1 != [] {
      assert (g1 + g2)[0] == g1[0] && (g1 + g2)[1..] == g1[1..] + g2;
      SimilarPairsAppend(g1[1..], g2, huexProbes);
    } else {
      assert g1 + g2 == g2;
    }
  }

  /** The probe ids of each pair. */
  function Ids(pairs: seq<(Probe, Probe)>): (ids: seq<(string, string)>)
  {
    seq(|pairs|, k requires 0 <= k < |pairs| => (pairs[k].0.probeId, pairs[k].1.probeId))
  }

  /** The ids of a concatenation are the concatenated ids. */
  lemma IdsAppend(a: seq<(Probe, Probe)>, b: seq<(Probe, Probe)>)
    ensures Ids(a + b) == Ids(a) + Ids(b)
  {
    var l, r := Ids(a + b), Ids(a) + Ids(b);
    forall k | 0 <= k < |l|
      ensures l[k] == r[k]
    {
      if k >= |a| {
        assert (a + b)[k] == b[k - |a|];
      }
    }
  }

  /** One step of the inner loop: the exon probe at position `j` adds its
      pair's ids when its sequence equals the gene probe's. */
  lemma InnerStep(done: seq<(Probe, Probe)>, g: Probe, huexProbes: seq<Probe>, j: int)
    requires 0 <= j < |huexProbes|
    ensures Ids(done + PairsWith(g, huexProbes[..j + 1]))
            == Ids(done + PairsWith(g, huexProbes[..j]))
               + (if SameProbe(g, huexProbes[j]) then [(g.probeId, huexProbes[j].probeId)] else [])
  {
    var e := huexProbes[j];
    assert huexProbes[..j + 1] == huexProbes[..j] + [e];
    PairsWithAppend(g, huexProbes[..j], [e]);
    var one := PairsWith(g, [e]);
    assert one == if SameProbe(g, e) then [(g, e)] else [];
    assert done + PairsWith(g, huexProbes[..j + 1]) == (done + PairsWith(g, huexProbes[..j])) + one;
    IdsAppend(done + PairsWith(g, huexProbes[..j]), one);
  }

  /** One step of the outer loop: the gene probe at position `i` adds its
      pairs with all exon probes. */
  lemma OuterStep(hugeProbes: seq<Probe>, huexProbes: seq<Probe>, i: int)
    requires 0 <= i < |hugeProbes|
    ensures SimilarPairs(hugeProbes[..i + 1], huexProbes)
            == SimilarPairs(hugeProbes[..i], huexProbes) + PairsWith(hugeProbes[i], huexProbes)
  {
    assert hugeProbes[..i + 1] == hugeProbes[..i] + [hugeProbes[i]];
    SimilarPairsAppend(hugeProbes[..i], [hugeProbes[i]], huexProbes);
    assert SimilarPairs([hugeProbes[i]], huexProbes) == PairsWith(hugeProbes[i], huexProbes) + [];
  }

  /** `similar_probes`, the probe id pairs of the
      equal-sequence combinations, gene probes outer and exon probes inner. */
  method FindSimilarProbes(hugeProbes: seq<Probe>, huexProbes: seq<Probe>) returns (similar: seq<(string, string)>)
    ensures similar == Ids(SimilarPairs(hugeProbes, huexProbes))
  {
    similar := [];
    var i := 0;
    while i < |hugeProbes|
      invariant 0 <= i <= |hugeProbes|
      invariant similar == Ids(SimilarPairs(hugeProbes[..i], huexProbes))
    {
      var hugeProbe := hugeProbes[i];
      ghost var done := SimilarPairs(hugeProbes[..i], huexProbes);
      assert done + PairsWith(hugeProbe, huexProbes[..0]) == done;
      var j := 0;
      while j < |huexProbes|
        invariant 0 <= j <= |huexProbes|
        invariant similar == Ids(done + PairsWith(hugeProbe, huexProbes[..j]))
      {
        var huexProbe := huexProbes[j];
        InnerStep(done, hugeProbe, huexProbes, j);
        if SameProbe(hugeProbe, huexProbe) {
          similar := similar + [(hugeProbe.probeId, huexProbe.probeId)];
        }
        j := j + 1;
      }
      assert huexProbes[..j] == huexProbes;
      OuterStep(hugeProbes, huexProbes, i);
      i := i + 1;
    }
    assert hugeProbes[..i] == hugeProbes;
  }

  /** One matched probe pair of a gene probe set: what one iteration of the
      emitting loop writes about. */
  datatype MatchedPair = MatchedPair(hugeProbesetId: string, hugeProbeId: string, huexProbeId: string)

  /** The pairs of ids, tagged with the gene probe set id. */
  function Tag(hugeId: string, ids: seq<(string, string)>): seq<MatchedPair>
  {
    seq(|ids|, k requires 0 <= k < |ids| => MatchedPair(hugeId, ids[k].0, ids[k].1))
  }

  /** The pairs of one gene probe set and one exon probe set: none when
      either is missing from its detail index. */
  function PairsForExon(hugeId: string, huexId: string, hugeDet: map<string, seq<Probe>>,
                        huexDet: map<string, seq<Probe>>): seq<MatchedPair>
  {
    if huexId in huexDet && hugeId in hugeDet
    then Tag(hugeId, Ids(SimilarPairs(hugeDet[hugeId], huexDet[huexId])))
    else []
  }

  /** The lists, one after the other. */
  function Concat<T>(lists: seq<seq<T>>): seq<T>
    decreases |lists|
  {
    if lists == [] then [] else Concat(lists[..|lists| - 1]) + lists[|lists| - 1]
  }

  lemma {:induction false} ConcatAppend<T>(l1: seq<seq<T>>, l2: seq<seq<T>>)
    ensures Concat(l1 + l2) == Concat(l1) + Concat(l2)
    decreases |l2|
  {
    if l2 == [] {
      assert l1 + l2 == l1;
    } else {
      var front := l2[..|l2| - 1];
      assert (l1 + l2)[..|l1 + l2| - 1] == l1 + front;
      assert (l1 + l2)[|l1 + l2| - 1] == l2[|l2| - 1];
      ConcatAppend(l1, front);
    }
  }

  lemma {:induction false} ConcatMembers<T>(lists: seq<seq<T>>, x: T)
    ensures x in Concat(lists) <==> exists j :: 0 <= j < |lists| && x in lists[j]
    decreases |lists|
  {
    if lists != [] {
      var front := lists[..|lists| - 1];
      ConcatMembers(front, x);
      assert forall j :: 0 <= j < |front| ==> front[j] == lists[j];
    }
  }

  /** The pair lists of one gene probe set with each of the exon probe sets. */
  function ExonPairLists(hugeId: string, huexIds: seq<string>, hugeDet: map<string, seq<Probe>>,
                         huexDet: map<string, seq<Probe>>): seq<seq<MatchedPair>>
  {
    seq(|huexIds|, j requires 0 <= j < |huexIds| => PairsForExon(hugeId, huexIds[j], hugeDet, huexDet))
  }

  /** The pairs of one gene probe set and its exon probe sets, in list order. */
  function PairsForProbeset(hugeId: string, huexIds: seq<string>, hugeDet: map<string, seq<Probe>>,
                            huexDet: map<string, seq<Probe>>): seq<MatchedPair>
  {
    Concat(ExonPairLists(hugeId, huexIds, hugeDet, huexDet))
  }

  /** One more exon probe set appends its pairs. */
  lemma PairsForProbesetStep(hugeId: string, huexIds: seq<string>, j: int, hugeDet: map<string, seq<Probe>>,
                             huexDet: map<string, seq<Probe>>)
    requires 0 <= j < |huexIds|
    ensures PairsForProbeset(hugeId, huexIds[..j + 1], hugeDet, huexDet)
            == PairsForProbeset(hugeId, huexIds[..j], hugeDet, huexDet) + PairsForExon(hugeId, huexIds[j], hugeDet, huexDet)
  {
    var lists := ExonPairLists(hugeId, huexIds[..j + 1], hugeDet, huexDet);
    assert lists[..j] == ExonPairLists(hugeId, huexIds[..j], hugeDet, huexDet);
  }

  /** All gene probe sets of `order` are in the probe set map. */
  ghost predicate InMap(order: seq<string>, probesetMap: map<string, seq<string>>)
  {
    forall i :: 0 <= i < |order| ==> order[i] in probesetMap
  }

  /** The pair lists of each gene probe set of `order`. */
  function ProbesetPairLists(order: seq<string>, probesetMap: map<string, seq<string>>, hugeDet: map<string, seq<Probe>>,
                             huexDet: map<string, seq<Probe>>): seq<seq<MatchedPair>>
    requires InMap(order, probesetMap)
  {
    seq(|order|, i requires 0 <= i < |order| => PairsForProbeset(order[i], probesetMap[order[i]], hugeDet, huexDet))
  }

  /** The pairs of the gene probe sets of `order`, in that order. */
  function AllPairs(order: seq<string>, probesetMap: map<string, seq<string>>, hugeDet: map<string, seq<Probe>>,
                    huexDet: map<string, seq<Probe>>): seq<MatchedPair>
    requires InMap(order, probesetMap)
  {
    Concat(ProbesetPairLists(order, probesetMap, hugeDet, huexDet))
  }

  lemma AllPairsAppend(o1: seq<string>, o2: seq<string>, probesetMap: map<string, seq<string>>,
                       hugeDet: map<string, seq<Probe>>, huexDet: map<string, seq<Probe>>)
    requires InMap(o1, probesetMap) && InMap(o2, probesetMap)
    ensures InMap(o1 + o2, probesetMap)
    ensures AllPairs(o1 + o2, probesetMap, hugeDet, huexDet)
            == AllPairs(o1, probesetMap, hugeDet, huexDet) + AllPairs(o2, probesetMap, hugeDet, huexDet)
  {
    assert forall i :: 0 <= i < |o1 + o2| ==> (o1 + o2)[i] == if i < |o1| then o1[i] else o2[i - |o1|];
    var l1 := ProbesetPairLists(o1, probesetMap, hugeDet, huexDet);
    var l2 := ProbesetPairLists(o2, probesetMap, hugeDet, huexDet);
    assert ProbesetPairLists(o1 + o2, probesetMap, hugeDet, huexDet) == l1 + l2;
    ConcatAppend(l1, l2);
  }

  /** `a` and `b` are probes of the two probe sets with equal sequences,
      and `p` names them. */
  ghost predicate Witnesses(p: MatchedPair, hugeProbes: seq<Probe>, huexProbes: seq<Probe>, a: Probe, b: Probe)
  {
    a in hugeProbes && b in huexProbes && SameProbe(a, b) && a.probeId == p.hugeProbeId && b.probeId == p.huexProbeId
  }

  /** Every pair of a gene probe set and an exon probe set names the gene
      probe set, and a gene probe of it and an exon probe of the exon probe
      set whose sequences are equal; every such combination is a pair. */
  lemma PairsForExonExact(hugeId: string, huexId: string, hugeDet: map<string, seq<Probe>>,
                          huexDet: map<string, seq<Probe>>, p: MatchedPair)
    ensures p in PairsForExon(hugeId, huexId, hugeDet, huexDet) <==>
            && p.hugeProbesetId == hugeId && hugeId in hugeDet && huexId in huexDet
            && (exists a, b :: Witnesses(p, hugeDet[hugeId], huexDet[huexId], a, b))
  {
    if hugeId in hugeDet && huexId in huexDet {
      var pairs := SimilarPairs(hugeDet[hugeId], huexDet[huexId]);
      var tagged := Tag(hugeId, Ids(pairs));
      if p in tagged {
        var k :| 0 <= k < |tagged| && tagged[k] == p;
        SimilarPairsExact(hugeDet[hugeId], huexDet[huexId], pairs[k].0, pairs[k].1);
        assert pairs[k] in pairs;
        assert Witnesses(p, hugeDet[hugeId], huexDet[huexId], pairs[k].0, pairs[k].1);
      }
      if p.hugeProbesetId == hugeId && exists a, b :: Witnesses(p, hugeDet[hugeId], huexDet[huexId], a, b) {
        var a, b :| Witnesses(p, hugeDet[hugeId], huexDet[huexId], a, b);
        SimilarPairsExact(hugeDet[hugeId], huexDet[huexId], a, b);
        var k :| 0 <= k < |pairs| && pairs[k] == (a, b);
        assert tagged[k] == p;
      }
    }
  }

  /** `p` is a pair of `hugeId` with one of the exon probe sets `huexIds`. */
  ghost predicate FromSomeExon(p: MatchedPair, hugeId: string, huexIds: seq<string>,
                               hugeDet: map<string, seq<Probe>>, huexDet: map<string, seq<Probe>>)
  {
    exists j :: 0 <= j < |huexIds| && p in PairsForExon(hugeId, huexIds[j], hugeDet, huexDet)
  }

  lemma PairsForProbesetMembers(hugeId: string, huexIds: seq<string>, hugeDet: map<string, seq<Probe>>,
                                huexDet: map<string, seq<Probe>>, p: MatchedPair)
    ensures p in PairsForProbeset(hugeId, huexIds, hugeDet, huexDet) <==> FromSomeExon(p, hugeId, huexIds, hugeDet, huexDet)
  {
    var lists := ExonPairLists(hugeId, huexIds, hugeDet, huexDet);
    ConcatMembers(lists, p);
    if FromSomeExon(p, hugeId, huexIds, hugeDet, huexDet) {
      var j :| 0 <= j < |huexIds| && p in PairsForExon(hugeId, huexIds[j], hugeDet, huexDet);
      assert p in lists[j];
    }
  }

  /** `p` is a pair of a gene probe set of `order` with one of its exon
      probe sets. */
  ghost predicate FromSomeProbeset(p: MatchedPair, order: seq<string>, probesetMap: map<string, seq<string>>,
                                   hugeDet: map<string, seq<Probe>>, huexDet: map<string, seq<Probe>>)
    requires InMap(order, probesetMap)
  {
    exists i :: 0 <= i < |order| && FromSomeExon(p, order[i], probesetMap[order[i]], hugeDet, huexDet)
  }

  /** The pairs of the whole run are exactly the pairs of a gene probe set
      of `order` with one of its exon probe sets. */
  lemma AllPairsMembers(order: seq<string>, probesetMap: map<string, seq<string>>,
                        hugeDet: map<string, seq<Probe>>, huexDet: map<string, seq<Probe>>, p: MatchedPair)
    requires InMap(order, probesetMap)
    ensures p in AllPairs(order, probesetMap, hugeDet, huexDet) <==> FromSomeProbeset(p, order, probesetMap, hugeDet, huexDet)
  {
    var lists := ProbesetPairLists(order, probesetMap, hugeDet, huexDet);
    ConcatMembers(lists, p);
    if p in AllPairs(order, probesetMap, hugeDet, huexDet) {
      var i :| 0 <= i < |lists| && p in lists[i];
      PairsForProbesetMembers(order[i], probesetMap[order[i]], hugeDet, huexDet, p);
    }
    if FromSomeProbeset(p, order, probesetMap, hugeDet, huexDet) {
      var i :| 0 <= i < |order| && FromSomeExon(p, order[i], probesetMap[order[i]], hugeDet, huexDet);
      PairsForProbesetMembers(order[i], probesetMap[order[i]], hugeDet, huexDet, p);
      assert p in lists[i];
    }
  }

  /** The three output streams: gene intensities, exon intensities and the
      manifest of exon probe ids. */
  datatype Streams = Streams(huge: seq<string>, huex: seq<string>, manifest: seq<string>)

  /** How the emitting loop ends: it runs through, or it stops with an
      exception, the lines written so far staying written. */
  datatype Run = Completed(out: Streams) | Crashed(out: Streams)

  /** What Python 2's `print` writes for an optional string. */
  function OptionLine(s: Option<string>): string
  {
    if s.Some? then s.value else "None"
  }

  /** The line printed for a gene probe: its intensity row, or `None` when
      the intensity index misses. */
  function GeneLine(hugeInt: map<string, ProbeIntensity>, probeId: string): string
  {
    if probeId in hugeInt then Repr(hugeInt[probeId]) else "None"
  }

  /** The three header lines: each intensity file's header, and `probe_id`. */
  function Headers(hugeHeader: Option<string>, huexHeader: Option<string>): Streams
  {
    Streams([OptionLine(hugeHeader)], [OptionLine(huexHeader)], ["probe_id"])
  }

  /** The innermost writing step of the main block, for one pair: the gene line is
      written first; a missing exon intensity then stops the run
      (`None.print_as`). */
  function EmitPair(s: Streams, p: MatchedPair, hugeInt: map<string, ProbeIntensity>,
                    huexInt: map<string, ProbeIntensity>): Run
  {
    var s1 := s.(huge := s.huge + [GeneLine(hugeInt, p.hugeProbeId)]);
    if p.huexProbeId in huexInt
    then Completed(s1.(huex := s1.huex + [PrintAs(huexInt[p.huexProbeId], p.hugeProbeId, p.hugeProbesetId)],
                       manifest := s1.manifest + [p.huexProbeId]))
    else Crashed(s1)
  }

  /** The run after the pairs, in order, starting from `start`. */
  function Emit(start: Streams, pairs: seq<MatchedPair>, hugeInt: map<string, ProbeIntensity>,
                huexInt: map<string, ProbeIntensity>): Run
    decreases |pairs|
  {
    if pairs == [] then Completed(start)
    else
      match Emit(start, pairs[..|pairs| - 1], hugeInt, huexInt)
      case Crashed(s) => Crashed(s)
      case Completed(s) => EmitPair(s, pairs[|pairs| - 1], hugeInt, huexInt)
  }

  /** Emitting two runs of pairs is emitting the first, then, unless it
      crashed, the second. */
  lemma {:induction false} EmitAppend(start: Streams, p1: seq<MatchedPair>, p2: seq<MatchedPair>,
                                      hugeInt: map<string, ProbeIntensity>, huexInt: map<string, ProbeIntensity>)
    ensures Emit(start, p1 + p2, hugeInt, huexInt) ==
            match Emit(start, p1, hugeInt, huexInt)
            case Crashed(s) => Crashed(s)
            case Completed(s) => Emit(s, p2, hugeInt, huexInt)
    decreases |p2|
  {
    if p2 == [] {
      assert p1 + p2 == p1;
    } else {
      var front := p2[..|p2| - 1];
      assert (p1 + p2)[..|p1 + p2| - 1] == p1 + front;
      assert (p1 + p2)[|p1 + p2| - 1] == p2[|p2| - 1];
      EmitAppend(start, p1, front, hugeInt, huexInt);
    }
  }

  /** The run completes iff every exon probe id of a pair has an intensity
      record. */
  lemma {:induction false} EmitCompletes(start: Streams, pairs: seq<MatchedPair>, hugeInt: map<string, ProbeIntensity>,
                                         huexInt: map<string, ProbeIntensity>)
    ensures Emit(start, pairs, hugeInt, huexInt).Completed? <==>
            forall k :: 0 <= k < |pairs| ==> pairs[k].huexProbeId in huexInt
    decreases |pairs|
  {
    if pairs != [] {
      var front := pairs[..|pairs| - 1];
      EmitCompletes(start, front, hugeInt, huexInt);
      assert forall k :: 0 <= k < |front| ==> front[k] == pairs[k];
      if Emit(start, front, hugeInt, huexInt).Crashed? {
        var k :| 0 <= k < |front| && front[k].huexProbeId !in huexInt;
        assert pairs[k].huexProbeId !in huexInt;
      } else if !(forall k :: 0 <= k < |pairs| ==> pairs[k].huexProbeId in huexInt) {
        var k :| 0 <= k < |pairs| && pairs[k].huexProbeId !in huexInt;
        assert k == |pairs| - 1;
      }
    }
  }

  /** A completed run has written exactly one line per pair to each stream,
      after the lines already there: the gene line, the exon record under
      the gene probe id and gene probe set id, and the exon probe id. */
  lemma {:induction false} EmitCompletedLines(start: Streams, pairs: seq<MatchedPair>, hugeInt: map<string, ProbeIntensity>,
                                              huexInt: map<string, ProbeIntensity>)
    requires Emit(start, pairs, hugeInt, huexInt).Completed?
    ensures forall k :: 0 <= k < |pairs| ==> pairs[k].huexProbeId in huexInt
    ensures var s := Emit(start, pairs, hugeInt, huexInt).out;
            && |s.huge| == |start.huge| + |pairs|
            && |s.huex| == |start.huex| + |pairs|
            && |s.manifest| == |start.manifest| + |pairs|
            && s.huge[..|start.huge|] == start.huge
            && s.huex[..|start.huex|] == start.huex
            && s.manifest[..|start.manifest|] == start.manifest
            && (forall k :: 0 <= k < |pairs| ==>
                  && s.huge[|start.huge| + k] == GeneLine(hugeInt, pairs[k].hugeProbeId)
                  && s.huex[|start.huex| + k] == PrintAs(huexInt[pairs[k].huexProbeId], pairs[k].hugeProbeId, pairs[k].hugeProbesetId)
                  && s.manifest[|start.manifest| + k] == pairs[k].huexProbeId)
    decreases |pairs|
  {
    if pairs != [] {
      var front := pairs[..|pairs| - 1];
      EmitCompletedLines(start, front, hugeInt, huexInt);
      assert forall k :: 0 <= k < |front| ==> front[k] == pairs[k];
    }
  }

  /** A crashed run has written the gene line of the pair it stopped at,
      so the gene stream holds one line more than the other two. */
  lemma {:induction false} EmitCrashedLines(start: Streams, pairs: seq<MatchedPair>, hugeInt: map<string, ProbeIntensity>,
                                            huexInt: map<string, ProbeIntensity>)
    requires Emit(start, pairs, hugeInt, huexInt).Crashed?
    ensures var s := Emit(start, pairs, hugeInt, huexInt).out;
            |s.huge| - |start.huge| == |s.huex| - |start.huex| + 1 == |s.manifest| - |start.manifest| + 1
    decreases |pairs|
  {
    var front := pairs[..|pairs| - 1];
    if Emit(start, front, hugeInt, huexInt).Crashed? {
      EmitCrashedLines(start, front, hugeInt, huexInt);
    } else {
      EmitCompletedLines(start, front, hugeInt, huexInt);
    }
  }

  /** A run that has crashed on a prefix of the pairs stays crashed. */
  lemma EmitCrashedPrefix(start: Streams, pairs: seq<MatchedPair>, k: int, hugeInt: map<string, ProbeIntensity>,
                          huexInt: map<string, ProbeIntensity>)
    requires 0 <= k <= |pairs| && Emit(start, pairs[..k], hugeInt, huexInt).Crashed?
    ensures Emit(start, pairs, hugeInt, huexInt) == Emit(start, pairs[..k], hugeInt, huexInt)
  {
    assert pairs == pairs[..k] + pairs[k..];
    EmitAppend(start, pairs[..k], pairs[k..], hugeInt, huexInt);
  }

  lemma PairsForProbesetSplit(hugeId: string, huexIds: seq<string>, j: int, hugeDet: map<string, seq<Probe>>,
                              huexDet: map<string, seq<Probe>>)
    requires 0 <= j <= |huexIds|
    ensures PairsForProbeset(hugeId, huexIds, hugeDet, huexDet)
            == PairsForProbeset(hugeId, huexIds[..j], hugeDet, huexDet) + PairsForProbeset(hugeId, huexIds[j..], hugeDet, huexDet)
  {
    var l1 := ExonPairLists(hugeId, huexIds[..j], hugeDet, huexDet);
    var l2 := ExonPairLists(hugeId, huexIds[j..], hugeDet, huexDet);
    assert ExonPairLists(hugeId, huexIds, hugeDet, huexDet) == l1 + l2;
    ConcatAppend(l1, l2);
  }

  /** The writing loop of the main block for one exon probe set of gene probe set
      `hugeId`. */
  method EmitExon(s: Streams, hugeId: string, huexId: string, hugeInt: ProbeIntensityFile, huexInt: ProbeIntensityFile,
                  hugeDet: ProbesetDetailFile, huexDet: ProbesetDetailFile)
    returns (run: Run)
    ensures run == Emit(s, PairsForExon(hugeId, huexId, hugeDet.Contents(), huexDet.Contents()), hugeInt.probes, huexInt.probes)
  {
    var huexProbes := huexDet.Get(huexId);
    var hugeProbes := hugeDet.Get(hugeId);
    if huexProbes == None || hugeProbes == None {
      return Completed(s);
    }
    var similar := FindSimilarProbes(hugeProbes.value, huexProbes.value);
    ghost var pairs := Tag(hugeId, similar);
    assert pairs == PairsForExon(hugeId, huexId, hugeDet.Contents(), huexDet.Contents());
    if |similar| == 0 {
      return Completed(s);
    }
    ghost var hp, ep := hugeInt.probes, huexInt.probes;
    var cur := s;
    var k := 0;
    while k < |similar|
      invariant 0 <= k <= |similar|
      invariant hugeInt.probes == hp && huexInt.probes == ep
      invariant pairs == PairsForExon(hugeId, huexId, hugeDet.Contents(), huexDet.Contents())
      invariant Emit(s, pairs[..k], hp, ep) == Completed(cur)
    {
      var (hugeProbe, huexProbe) := similar[k];
      assert pairs[k] == MatchedPair(hugeId, hugeProbe, huexProbe);
      assert pairs[..k + 1][..k] == pairs[..k];
      var hugeRecord := hugeInt.Get(hugeProbe);
      var hugeLine := if hugeRecord.Some? then Repr(hugeRecord.value) else "None";
      cur := cur.(huge := cur.huge + [hugeLine]);
      var huexRecord := huexInt.Get(huexProbe);
      if huexRecord.None? {
        EmitCrashedPrefix(s, pairs, k + 1, hp, ep);
        return Crashed(cur);
      }
      cur := cur.(huex := cur.huex + [PrintAs(huexRecord.value, hugeProbe, hugeId)],
                  manifest := cur.manifest + [huexProbe]);
      k := k + 1;
    }
    assert pairs[..k] == pairs;
    run := Completed(cur);
  }

  /** One exon probe set more in the loop of `EmitProbeset`. */
  lemma EmitProbesetStep(s: Streams, cur: Streams, r: Run, hugeId: string, huexIds: seq<string>, j: int,
                         hugeDet: map<string, seq<Probe>>, huexDet: map<string, seq<Probe>>,
                         hugeInt: map<string, ProbeIntensity>, huexInt: map<string, ProbeIntensity>)
    requires 0 <= j < |huexIds|
    requires Emit(s, PairsForProbeset(hugeId, huexIds[..j], hugeDet, huexDet), hugeInt, huexInt) == Completed(cur)
    requires r == Emit(cur, PairsForExon(hugeId, huexIds[j], hugeDet, huexDet), hugeInt, huexInt)
    ensures r.Completed? ==> Emit(s, PairsForProbeset(hugeId, huexIds[..j + 1], hugeDet, huexDet), hugeInt, huexInt) == r
    ensures r.Crashed? ==> Emit(s, PairsForProbeset(hugeId, huexIds, hugeDet, huexDet), hugeInt, huexInt) == r
  {
    var before := PairsForProbeset(hugeId, huexIds[..j], hugeDet, huexDet);
    var step := PairsForExon(hugeId, huexIds[j], hugeDet, huexDet);
    PairsForProbesetStep(hugeId, huexIds, j, hugeDet, huexDet);
    EmitAppend(s, before, step, hugeInt, huexInt);
    if r.Crashed? {
      PairsForProbesetSplit(hugeId, huexIds, j + 1, hugeDet, huexDet);
      EmitAppend(s, before + step, PairsForProbeset(hugeId, huexIds[j + 1..], hugeDet, huexDet), hugeInt, huexInt);
    }
  }

  /** The writing loop of the main block over every exon probe set of gene probe
      set `hugeId`, in list order, stopping at a crash. */
  method EmitProbeset(s: Streams, hugeId: string, huexIds: seq<string>, hugeInt: ProbeIntensityFile,
                      huexInt: ProbeIntensityFile, hugeDet: ProbesetDetailFile, huexDet: ProbesetDetailFile)
    returns (run: Run)
    ensures run == Emit(s, PairsForProbeset(hugeId, huexIds, hugeDet.Contents(), huexDet.Contents()),
                        hugeInt.probes, huexInt.probes)
  {
    ghost var hd, ed := hugeDet.Contents(), huexDet.Contents();
    var cur := s;
    var j := 0;
    assert PairsForProbeset(hugeId, huexIds[..0], hd, ed) == [];
    while j < |huexIds|
      invariant 0 <= j <= |huexIds|
      invariant hugeDet.Contents() == hd && huexDet.Contents() == ed
      invariant Emit(s, PairsForProbeset(hugeId, huexIds[..j], hd, ed), hugeInt.probes, huexInt.probes) == Completed(cur)
    {
      var r := EmitExon(cur, hugeId, huexIds[j], hugeInt, huexInt, hugeDet, huexDet);
      EmitProbesetStep(s, cur, r, hugeId, huexIds, j, hd, ed, hugeInt.probes, huexInt.probes);
      if r.Crashed? {
        return r;
      }
      cur := r.out;
      j := j + 1;
    }
    assert huexIds[..j] == huexIds;
    run := Completed(cur);
  }

  /** One gene probe set more in the loop of `EmitIntensities`. */
  lemma EmitIntensitiesStep(start: Streams, cur: Streams, r: Run, order: seq<string>, hugeId: string,
                            probesetMap: map<string, seq<string>>, hugeDet: map<string, seq<Probe>>,
                            huexDet: map<string, seq<Probe>>, hugeInt: map<string, ProbeIntensity>,
                            huexInt: map<string, ProbeIntensity>)
    requires InMap(order, probesetMap) && hugeId in probesetMap
    requires Emit(start, AllPairs(order, probesetMap, hugeDet, huexDet), hugeInt, huexInt) == Completed(cur)
    requires r == Emit(cur, PairsForProbeset(hugeId, probesetMap[hugeId], hugeDet, huexDet), hugeInt, huexInt)
    ensures InMap(order + [hugeId], probesetMap)
    ensures Emit(start, AllPairs(order + [hugeId], probesetMap, hugeDet, huexDet), hugeInt, huexInt) == r
  {
    assert InMap([hugeId], probesetMap);
    AllPairsAppend(order, [hugeId], probesetMap, hugeDet, huexDet);
    var one := PairsForProbeset(hugeId, probesetMap[hugeId], hugeDet, huexDet);
    assert AllPairs([hugeId], probesetMap, hugeDet, huexDet) == one by {
      assert ProbesetPairLists([hugeId], probesetMap, hugeDet, huexDet) == [one];
      assert [one][..0] == [];
      assert Concat([one]) == Concat([]) + one;
    }
    EmitAppend(start, AllPairs(order, probesetMap, hugeDet, huexDet), one, hugeInt, huexInt);
  }

  /** The gene probe sets after a crash add nothing. */
  lemma EmitCrashedExtend(start: Streams, order: seq<string>, rest: seq<string>, probesetMap: map<string, seq<string>>,
                          hugeDet: map<string, seq<Probe>>, huexDet: map<string, seq<Probe>>,
                          hugeInt: map<string, ProbeIntensity>, huexInt: map<string, ProbeIntensity>)
    requires InMap(order, probesetMap) && InMap(rest, probesetMap)
    requires Emit(start, AllPairs(order, probesetMap, hugeDet, huexDet), hugeInt, huexInt).Crashed?
    ensures InMap(order + rest, probesetMap)
    ensures Emit(start, AllPairs(order + rest, probesetMap, hugeDet, huexDet), hugeInt, huexInt)
            == Emit(start, AllPairs(order, probesetMap, hugeDet, huexDet), hugeInt, huexInt)
  {
    AllPairsAppend(order, rest, probesetMap, hugeDet, huexDet);
    EmitAppend(start, AllPairs(order, probesetMap, hugeDet, huexDet), AllPairs(rest, probesetMap, hugeDet, huexDet),
               hugeInt, huexInt);
  }

  /** The elements of a set, each once, in some order. */
  ghost function EnumerationOf(s: set<string>): (r: seq<string>)
    ensures Enumerates(r, s)
    decreases s
  {
    if s == {} then []
    else
      var x :| x in s;
      [x] + EnumerationOf(s - {x})
  }

  /** `order` lists, each once, the gene probe sets already visited: those
      of the probe set map not in `remaining`. */
  ghost predicate Visited(order: seq<string>, remaining: set<string>, probesetMap: map<string, seq<string>>)
  {
    && remaining <= probesetMap.Keys
    && (forall i, j :: 0 <= i < j < |order| ==> order[i] != order[j])
    && (forall k :: k in order <==> k in probesetMap && k !in remaining)
    && InMap(order, probesetMap)
  }

  lemma VisitOne(order: seq<string>, remaining: set<string>, hugeId: string, probesetMap: map<string, seq<string>>)
    requires Visited(order, remaining, probesetMap) && hugeId in remaining
    ensures Visited(order + [hugeId], remaining - {hugeId}, probesetMap)
  {
    var next := order + [hugeId];
    forall i, j | 0 <= i < j < |next|
      ensures next[i] != next[j]
    {
      if j == |order| {
        assert next[i] == order[i];
      }
    }
  }

  lemma VisitedAll(order: seq<string>, remaining: set<string>, probesetMap: map<string, seq<string>>)
    requires Visited(order, remaining, probesetMap) && remaining == {}
    ensures Enumerates(order, probesetMap.Keys) && InMap(order, probesetMap)
  {
  }

  /** The visited gene probe sets followed by the ones not yet visited,
      each once, enumerate the probe set map. */
  lemma OrderCompleted(order: seq<string>, rest: seq<string>, remaining: set<string>,
                       probesetMap: map<string, seq<string>>)
    requires Visited(order, remaining, probesetMap)
    requires Enumerates(rest, remaining)
    ensures InMap(rest, probesetMap)
    ensures Enumerates(order + rest, probesetMap.Keys)
  {
    var all := order + rest;
    forall i, j | 0 <= i < j < |all|
      ensures all[i] != all[j]
    {
      if j < |order| {
        assert all[i] == order[i] && all[j] == order[j];
      } else if i >= |order| {
        assert all[i] == rest[i - |order|] && all[j] == rest[j - |order|];
      } else {
        assert all[i] == order[i] && all[j] == rest[j - |order|];
        assert all[i] !in remaining && all[j] in remaining;
      }
    }
    forall k
      ensures k in probesetMap.Keys <==> k in all
    {
      assert k in all <==> k in order || k in rest;
    }
  }

  /** The writing part of the main block: the header lines, then every gene probe
      set of the probe set map in the unspecified order of the dictionary,
      returned as `order`; `hd` and `ed` are the two detail indexes. A crash ends
      the run; `order` then goes on with the gene probe sets not reached, which
      add nothing to a crashed run. */
  method EmitIntensities(probesetMap: map<string, seq<string>>, hugeInt: ProbeIntensityFile, huexInt: ProbeIntensityFile,
                         hugeDet: ProbesetDetailFile, huexDet: ProbesetDetailFile,
                         ghost hd: map<string, seq<Probe>>, ghost ed: map<string, seq<Probe>>)
    returns (run: Run, ghost order: seq<string>)
    requires hd == hugeDet.Contents() && ed == huexDet.Contents()
    ensures Enumerates(order, probesetMap.Keys) && InMap(order, probesetMap)
    ensures run == Emit(Headers(hugeInt.header, huexInt.header), AllPairs(order, probesetMap, hd, ed),
                        hugeInt.probes, huexInt.probes)
  {
    var cur := Headers(hugeInt.header, huexInt.header);
    ghost var start := cur;
    var c := 0;
    var remaining := probesetMap.Keys;
    order := [];
    while remaining != {}
      invariant c == 0
      invariant hugeDet.Contents() == hd && huexDet.Contents() == ed
      invariant Visited(order, remaining, probesetMap)
      invariant Emit(start, AllPairs(order, probesetMap, hd, ed), hugeInt.probes, huexInt.probes) == Completed(cur)
      decreases remaining
    {
      var hugeId :| hugeId in remaining;
      if c > 10 {
        break;
      }
      var r := EmitProbeset(cur, hugeId, probesetMap[hugeId], hugeInt, huexInt, hugeDet, huexDet);
      EmitIntensitiesStep(start, cur, r, order, hugeId, probesetMap, hd, ed, hugeInt.probes, huexInt.probes);
      VisitOne(order, remaining, hugeId, probesetMap);
      order := order + [hugeId];
      remaining := remaining - {hugeId};
      if r.Crashed? {
        ghost var rest := EnumerationOf(remaining);
        OrderCompleted(order, rest, remaining, probesetMap);
        EmitCrashedExtend(start, order, rest, probesetMap, hd, ed, hugeInt.probes, huexInt.probes);
        order := order + rest;
        return r, order;
      }
      cur := r.out;
      c := c + 0;
    }
    VisitedAll(order, remaining, probesetMap);
    run := Completed(cur);
  }
}
