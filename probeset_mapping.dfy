/** The maps the microarray script builds before it looks at probes: gene
    metaprobeset to exon metaprobesets (the comparison map), metaprobeset
    to probe sets (one membership map per platform), and their composition,
    gene probe set to exon probe sets. */
module ProbesetMapping {
  import opened Text
  import opened RecordIndex

  /** Rows of the comparison map that are used: all but header rows
      (comment rows are not skipped there). */
  predicate IsComparisonRow(row: Row)
  {
    !IsHeader(row)
  }

  /** Field 5 of a comparison row: the gene metaprobeset. */
  function GeneMetaprobesetOfRow(row: Row): string
    requires |row| >= 6
  {
    row[5]
  }

  /** Field 2 of a comparison row: the exon metaprobeset. */
  function ExonMetaprobesetOfRow(row: Row): string
    requires |row| >= 6
  {
    row[2]
  }

  /** Every used comparison row has fields 0 to 5. */
  predicate ComparisonRowsWellFormed(rows: seq<Row>)
  {
    forall i :: 0 <= i < |rows| && IsComparisonRow(rows[i]) ==> |rows[i]| >= 6
  }

  /** The exon metaprobesets listed for gene metaprobeset `g`, in row order,
      duplicates kept. */
  function ExonCandidates(rows: seq<Row>, g: string): seq<string>
    requires ComparisonRowsWellFormed(rows)
  {
    Group(rows, IsComparisonRow, GeneMetaprobesetOfRow, ExonMetaprobesetOfRow, g)
  }

  /** The gene metaprobesets of the used comparison rows. */
  function GeneMetaprobesets(rows: seq<Row>): set<string>
    requires ComparisonRowsWellFormed(rows)
  {
    GroupKeys(rows, IsComparisonRow, GeneMetaprobesetOfRow, ExonMetaprobesetOfRow)
  }

  /** The comparison map the script builds. */
  function CrossMap(rows: seq<Row>): map<string, seq<string>>
    requires ComparisonRowsWellFormed(rows)
  {
    GroupAll(map[], rows, IsComparisonRow, GeneMetaprobesetOfRow, ExonMetaprobesetOfRow)
  }

  /** Every gene metaprobeset of the comparison map has at least one
      candidate, and its candidates are those of its rows, in row order. */
  lemma CrossMapEntries(rows: seq<Row>, g: string)
    requires ComparisonRowsWellFormed(rows)
    ensures g in CrossMap(rows) <==> g in GeneMetaprobesets(rows)
    ensures g in CrossMap(rows) ==> CrossMap(rows)[g] == ExonCandidates(rows, g) && |CrossMap(rows)[g]| > 0
  {
    GroupNonEmpty(rows, IsComparisonRow, GeneMetaprobesetOfRow, ExonMetaprobesetOfRow, g);
  }

  /** The comparison map loop of the main block: gene metaprobeset
      (field 5) to the list of its exon metaprobesets (field 2). */
  method BuildMetaprobesetMap(rows: seq<Row>) returns (m: map<string, seq<string>>)
    requires ComparisonRowsWellFormed(rows)
    ensures forall g :: g in m <==> g in GeneMetaprobesets(rows)
    ensures forall g :: g in m ==> m[g] == ExonCandidates(rows, g) && |m[g]| > 0
  {
    m := map[];
    GroupAllNoRows(m, IsComparisonRow, GeneMetaprobesetOfRow, ExonMetaprobesetOfRow);
    assert rows[..0] == [];
    var i := 0;
    while i < |rows|
      invariant 0 <= i <= |rows|
      invariant m == GroupAll(map[], rows[..i], IsComparisonRow, GeneMetaprobesetOfRow, ExonMetaprobesetOfRow)
    {
      var row := rows[i];
      assert rows[..i + 1] == rows[..i] + [row];
      GroupAllStep(map[], rows[..i], row, IsComparisonRow, GeneMetaprobesetOfRow, ExonMetaprobesetOfRow);
      if IsHeader(row) {
        i := i + 1;
        continue;
      }
      assert GeneMetaprobesetOfRow(row) == row[5] && ExonMetaprobesetOfRow(row) == row[2];
      if row[5] !in m {
        assert Lookup(m, row[5]) + [row[2]] == [row[2]];
        m := m[row[5] := [row[2]]];
      } else {
        m := m[row[5] := m[row[5]] + [row[2]]];
      }
      i := i + 1;
    }
    assert rows[..i] == rows;
    forall g
      ensures g in m <==> g in GeneMetaprobesets(rows)
      ensures g in m ==> m[g] == ExonCandidates(rows, g) && |m[g]| > 0
    {
      CrossMapEntries(rows, g);
    }
  }

  /** Rows of a membership map that are used: neither comment nor header. */
  predicate IsMembershipRow(row: Row)
  {
    !IsComment(row) && !IsHeader(row)
  }

  /** Field 2 of a membership row, split on single spaces. */
  function MembersOfRow(row: Row): seq<string>
    requires |row| >= 3
  {
    Split(row[2], ' ')
  }

  /** Every used membership row has fields 0 to 2. */
  predicate MembershipRowsWellFormed(rows: seq<Row>)
  {
    forall i :: 0 <= i < |rows| && IsMembershipRow(rows[i]) ==> |rows[i]| >= 3
  }

  /** The membership map the script builds from `init`. */
  function Memberships(init: map<string, seq<string>>, rows: seq<Row>): map<string, seq<string>>
    requires MembershipRowsWellFormed(rows)
  {
    IndexRows(init, rows, IsMembershipRow, MembersOfRow)
  }

  /** The membership map loop of the main block (once per platform): metaprobeset
      (field 0) to the probe sets of field 2, in their order; a repeated
      metaprobeset replaces the earlier entry. */
  method BuildMembershipMap(rows: seq<Row>) returns (m: map<string, seq<string>>)
    requires MembershipRowsWellFormed(rows)
    ensures m == Memberships(map[], rows)
  {
    m := map[];
    var i := 0;
    while i < |rows|
      invariant 0 <= i <= |rows|
      invariant m == Memberships(map[], rows[..i])
    {
      var row := rows[i];
      assert rows[..i + 1][..i] == rows[..i];
      if IsComment(row) || IsHeader(row) {
        i := i + 1;
        continue;
      }
      m := m[row[0] := Split(row[2], ' ')];
      i := i + 1;
    }
    assert rows[..i] == rows;
  }

  /** A metaprobeset is in the membership map iff a used row names it, and
      then maps to the split field 2 of the last such row. */
  lemma MembershipOfLastRow(rows: seq<Row>, i: nat)
    requires MembershipRowsWellFormed(rows)
    requires i < |rows| && IsMembershipRow(rows[i])
    requires forall j :: i < j < |rows| && IsMembershipRow(rows[j]) ==> !KeyIs(rows[j], rows[i][0])
    ensures rows[i][0] in Memberships(map[], rows)
    ensures Memberships(map[], rows)[rows[i][0]] == Split(rows[i][2], ' ')
    ensures Join(Memberships(map[], rows)[rows[i][0]], ' ') == rows[i][2]
  {
    IndexRowsLastWins(map[], rows, IsMembershipRow, MembersOfRow, i);
    JoinSplit(rows[i][2], ' ');
  }

  /** A metaprobeset that no used row names is missing from the map. */
  lemma MembershipMiss(rows: seq<Row>, k: string)
    requires MembershipRowsWellFormed(rows)
    requires forall j :: 0 <= j < |rows| && IsMembershipRow(rows[j]) ==> !KeyIs(rows[j], k)
    ensures k !in Memberships(map[], rows)
  {
    IndexRowsUntouched(map[], rows, IsMembershipRow, MembersOfRow, k);
  }

  /** The exon metaprobeset chosen among `candidates`: the only one, or the
      one `random.choice` returns (any position, given by `k`). */
  function Chosen(candidates: seq<string>, k: nat): (c: string)
    requires |candidates| > 0
    ensures c in candidates
    ensures |candidates| == 1 ==> c == candidates[0]
  {
    if |candidates| > 1 then candidates[k % |candidates|] else candidates[0]
  }

  /** Every candidate is the choice of some random outcome. */
  lemma EveryCandidateCanBeChosen(candidates: seq<string>, j: nat)
    requires j < |candidates|
    ensures exists k: nat :: Chosen(candidates, k) == candidates[j]
  {
    assert j % |candidates| == j;
    assert Chosen(candidates, j) == candidates[j];
  }

  /** The comparison map lists at least one candidate per gene metaprobeset. */
  ghost predicate CandidatesPresent(metaMap: map<string, seq<string>>)
  {
    forall g :: g in metaMap ==> |metaMap[g]| > 0
  }

  /** Gene metaprobeset `g` is resolved: its gene probe sets are known and
      so are the exon probe sets of its chosen candidate. */
  ghost predicate Resolvable(metaMap: map<string, seq<string>>, huge: map<string, seq<string>>,
                             huex: map<string, seq<string>>, pick: string -> nat, g: string)
    requires g in metaMap && |metaMap[g]| > 0
  {
    g in huge && Chosen(metaMap[g], pick(g)) in huex
  }

  /** The exon probe sets every gene probe set of `g` maps to. */
  ghost function ExonProbesets(metaMap: map<string, seq<string>>, huex: map<string, seq<string>>,
                               pick: string -> nat, g: string): seq<string>
    requires g in metaMap && |metaMap[g]| > 0 && Chosen(metaMap[g], pick(g)) in huex
  {
    huex[Chosen(metaMap[g], pick(g))]
  }

  /** All gene metaprobesets of `order` are in the comparison map. */
  ghost predicate Covers(order: seq<string>, metaMap: map<string, seq<string>>)
  {
    forall i :: 0 <= i < |order| ==> order[i] in metaMap
  }

  /** The probe set map after resolving the gene metaprobesets of `order`,
      in that order: each resolved one maps every one of its gene probe sets
      to the full list of exon probe sets of its chosen candidate, replacing
      an earlier entry. */
  ghost function Resolve(order: seq<string>, metaMap: map<string, seq<string>>, huge: map<string, seq<string>>,
                         huex: map<string, seq<string>>, pick: string -> nat): map<string, seq<string>>
    requires CandidatesPresent(metaMap) && Covers(order, metaMap)
    decreases |order|
  {
    if order == [] then map[]
    else
      var g := order[|order| - 1];
      var m := Resolve(order[..|order| - 1], metaMap, huge, huex, pick);
      if Resolvable(metaMap, huge, huex, pick, g)
      then m + map ps | ps in huge[g] :: ExonProbesets(metaMap, huex, pick, g)
      else m
  }

  /** A gene probe set is mapped iff some resolved metaprobeset of `order`
      lists it; a metaprobeset missing from either membership map adds
      nothing. */
  lemma {:induction false} ResolveKeys(order: seq<string>, metaMap: map<string, seq<string>>, huge: map<string, seq<string>>,
                                       huex: map<string, seq<string>>, pick: string -> nat, ps: string)
    requires CandidatesPresent(metaMap) && Covers(order, metaMap)
    ensures ps in Resolve(order, metaMap, huge, huex, pick) <==>
            exists i :: 0 <= i < |order| && Resolvable(metaMap, huge, huex, pick, order[i]) && ps in huge[order[i]]
    decreases |order|
  {
    if order != [] {
      var front := order[..|order| - 1];
      assert Covers(front, metaMap);
      ResolveKeys(front, metaMap, huge, huex, pick, ps);
      if exists i :: 0 <= i < |front| && Resolvable(metaMap, huge, huex, pick, front[i]) && ps in huge[front[i]] {
        var i :| 0 <= i < |front| && Resolvable(metaMap, huge, huex, pick, front[i]) && ps in huge[front[i]];
        assert order[i] == front[i];
      }
      if exists i :: 0 <= i < |order| && Resolvable(metaMap, huge, huex, pick, order[i]) && ps in huge[order[i]] {
        var i :| 0 <= i < |order| && Resolvable(metaMap, huge, huex, pick, order[i]) && ps in huge[order[i]];
        if i < |front| {
          assert front[i] == order[i];
        }
      }
    }
  }

  /** A gene probe set maps to the exon probe sets of the last resolved
      metaprobeset of `order` that lists it (last write wins). */
  lemma {:induction false} ResolveLastWins(order: seq<string>, metaMap: map<string, seq<string>>, huge: map<string, seq<string>>,
                                           huex: map<string, seq<string>>, pick: string -> nat, ps: string, i: nat)
    requires CandidatesPresent(metaMap) && Covers(order, metaMap)
    requires i < |order| && Resolvable(metaMap, huge, huex, pick, order[i]) && ps in huge[order[i]]
    requires forall j :: i < j < |order| && Resolvable(metaMap, huge, huex, pick, order[j]) ==> ps !in huge[order[j]]
    ensures ps in Resolve(order, metaMap, huge, huex, pick)
    ensures Resolve(order, metaMap, huge, huex, pick)[ps] == ExonProbesets(metaMap, huex, pick, order[i])
    decreases |order|
  {
    var front := order[..|order| - 1];
    assert Covers(front, metaMap);
    if i < |order| - 1 {
      assert front[i] == order[i];
      forall j | i < j < |front| && Resolvable(metaMap, huge, huex, pick, front[j])
        ensures ps !in huge[front[j]]
      {
        assert front[j] == order[j];
      }
      ResolveLastWins(front, metaMap, huge, huex, pick, ps, i);
    }
  }

  /** Resolving one more gene metaprobeset. */
  lemma ResolveStep(visited: seq<string>, g: string, metaMap: map<string, seq<string>>, huge: map<string, seq<string>>,
                    huex: map<string, seq<string>>, pick: string -> nat)
    requires CandidatesPresent(metaMap) && Covers(visited, metaMap) && g in metaMap
    ensures Covers(visited + [g], metaMap)
    ensures Resolve(visited + [g], metaMap, huge, huex, pick) ==
            if Resolvable(metaMap, huge, huex, pick, g)
            then Resolve(visited, metaMap, huge, huex, pick) + map ps | ps in huge[g] :: ExonProbesets(metaMap, huex, pick, g)
            else Resolve(visited, metaMap, huge, huex, pick)
  {
    assert (visited + [g])[..|visited|] == visited;
  }

  /** `order` lists every key of `keys` exactly once. */
  ghost predicate Enumerates(order: seq<string>, keys: set<string>)
  {
    && (forall i, j :: 0 <= i < j < |order| ==> order[i] != order[j])
    && (forall k :: k in keys <==> k in order)
  }

  /** The resolving loop of the main block builds the probe set map. Gene
      metaprobesets are visited in the unspecified order of the dictionary,
      returned as `order`; `pick` stands for the outcomes of
      `random.choice`. */
  method ResolveProbesets(metaMap: map<string, seq<string>>, huge: map<string, seq<string>>,
                          huex: map<string, seq<string>>, pick: string -> nat)
    returns (probesetMap: map<string, seq<string>>, ghost order: seq<string>)
    requires CandidatesPresent(metaMap)
    ensures Enumerates(order, metaMap.Keys)
    ensures Covers(order, metaMap)
    ensures probesetMap == Resolve(order, metaMap, huge, huex, pick)
  {
    probesetMap := map[];
    order := [];
    var remaining := metaMap.Keys;
    while remaining != {}
      invariant remaining <= metaMap.Keys
      invariant forall i, j :: 0 <= i < j < |order| ==> order[i] != order[j]
      invariant forall k :: k in order <==> k in metaMap && k !in remaining
      invariant Covers(order, metaMap)
      invariant probesetMap == Resolve(order, metaMap, huge, huex, pick)
      decreases remaining
    {
      var hugeMps :| hugeMps in remaining;
      remaining := remaining - {hugeMps};
      var candidates := metaMap[hugeMps];
      var huexMps;
      if |candidates| > 1 {
        huexMps := candidates[pick(hugeMps) % |candidates|];
      } else {
        huexMps := candidates[0];
      }
      assert huexMps == Chosen(candidates, pick(hugeMps));
      ResolveStep(order, hugeMps, metaMap, huge, huex, pick);
      order := order + [hugeMps];
      if hugeMps !in huge || huexMps !in huex {
        continue;
      }
      probesetMap := AssignEach(probesetMap, huge[hugeMps], huex[huexMps]);
    }
  }

  /** The innermost assignment of the resolving loop: every key of `keys` is given
      `value`. */
  method AssignEach(m: map<string, seq<string>>, keys: seq<string>, value: seq<string>)
    returns (r: map<string, seq<string>>)
    ensures r == m + map k | k in keys :: value
  {
    r := m;
    var j := 0;
    while j < |keys|
      invariant 0 <= j <= |keys|
      invariant r == m + map k | k in keys[..j] :: value
    {
      assert keys[..j + 1] == keys[..j] + [keys[j]];
      r := r[keys[j] := value];
      j := j + 1;
    }
    assert keys[..j] == keys;
  }
}
