/** The main block of the microarray script: the four maps, the two
    intensity files and the two detail files are built from their rows,
    then the matched intensities are written. */
module Transform {
  import opened Wrappers
  import opened RecordIndex
  import opened ProbeFiles
  import opened ProbesetMapping
  import opened ProbeMatching

  /** Every input file has the fields the script indexes. */
  predicate InputsWellFormed(comparison: seq<Row>, huexMembership: seq<Row>, hugeMembership: seq<Row>,
                             huexIntensityRows: seq<Row>, hugeIntensityRows: seq<Row>,
                             huexDetailRows: seq<Row>, hugeDetailRows: seq<Row>)
  {
    && ComparisonRowsWellFormed(comparison)
    && MembershipRowsWellFormed(huexMembership) && MembershipRowsWellFormed(hugeMembership)
    && IntensityRowsWellFormed(huexIntensityRows) && IntensityRowsWellFormed(hugeIntensityRows)
    && DetailRowsWellFormed(huexDetailRows) && DetailRowsWellFormed(hugeDetailRows)
  }

  /** The comparison map has a candidate for each of its keys. */
  lemma CrossMapCandidates(comparison: seq<Row>)
    requires ComparisonRowsWellFormed(comparison)
    ensures CandidatesPresent(CrossMap(comparison))
  {
    forall g | g in CrossMap(comparison)
      ensures |CrossMap(comparison)[g]| > 0
    {
      CrossMapEntries(comparison, g);
    }
  }

  /** A map with the keys and the entries `BuildMetaprobesetMap` promises
      is the comparison map. */
  lemma MetaprobesetMapIsCrossMap(comparison: seq<Row>, m: map<string, seq<string>>)
    requires ComparisonRowsWellFormed(comparison)
    requires forall g :: g in m <==> g in GeneMetaprobesets(comparison)
    requires forall g :: g in m ==> m[g] == ExonCandidates(comparison, g)
    ensures m == CrossMap(comparison)
  {
    forall g | g in m || g in CrossMap(comparison)
      ensures g in m && g in CrossMap(comparison) && m[g] == CrossMap(comparison)[g]
    {
      CrossMapEntries(comparison, g);
    }
  }

  /** The map-building part of the main block: the comparison map, the two
      membership maps and the probe set map resolved from them. */
  method BuildProbesetMap(comparison: seq<Row>, huexMembership: seq<Row>, hugeMembership: seq<Row>, pick: string -> nat)
    returns (probesetMap: map<string, seq<string>>, ghost metaOrder: seq<string>)
    requires ComparisonRowsWellFormed(comparison)
    requires MembershipRowsWellFormed(huexMembership) && MembershipRowsWellFormed(hugeMembership)
    ensures CandidatesPresent(CrossMap(comparison))
    ensures Enumerates(metaOrder, CrossMap(comparison).Keys) && Covers(metaOrder, CrossMap(comparison))
    ensures probesetMap == Resolve(metaOrder, CrossMap(comparison), Memberships(map[], hugeMembership),
                                   Memberships(map[], huexMembership), pick)
  {
    var metaprobesetMap := BuildMetaprobesetMap(comparison);
    MetaprobesetMapIsCrossMap(comparison, metaprobesetMap);
    CrossMapCandidates(comparison);
    var huexMetaprobesets := BuildMembershipMap(huexMembership);
    var hugeMetaprobesets := BuildMembershipMap(hugeMembership);
    probesetMap, metaOrder := ResolveProbesets(metaprobesetMap, hugeMetaprobesets, huexMetaprobesets, pick);
  }

  /** The writing part of the main block: the intensity and detail files are read,
      then the matched intensities of the probe set map are written. */
  method WriteIntensities(probesetMap: map<string, seq<string>>, huexIntensityRows: seq<Row>, hugeIntensityRows: seq<Row>,
                          huexDetailRows: seq<Row>, hugeDetailRows: seq<Row>)
    returns (run: Run, ghost order: seq<string>)
    requires IntensityRowsWellFormed(huexIntensityRows) && IntensityRowsWellFormed(hugeIntensityRows)
    requires DetailRowsWellFormed(huexDetailRows) && DetailRowsWellFormed(hugeDetailRows)
    ensures Enumerates(order, probesetMap.Keys) && InMap(order, probesetMap)
    ensures run == Emit(Headers(HeaderOf(None, hugeIntensityRows), HeaderOf(None, huexIntensityRows)),
                        AllPairs(order, probesetMap, DetailIndex(map[], hugeDetailRows), DetailIndex(map[], huexDetailRows)),
                        IntensityIndex(map[], hugeIntensityRows), IntensityIndex(map[], huexIntensityRows))
  {
    var huexInt := new ProbeIntensityFile(huexIntensityRows);
    var hugeInt := new ProbeIntensityFile(hugeIntensityRows);
    var huexDet := new ProbesetDetailFile(huexDetailRows);
    ghost var huexIndex := huexDet.Contents();
    var hugeDet := new ProbesetDetailFile(hugeDetailRows);
    assert huexDet.Contents() == huexIndex;
    ghost var hugeIndex := hugeDet.Contents();
    run, order := EmitIntensities(probesetMap, hugeInt, huexInt, hugeDet, huexDet, hugeIndex, huexIndex);
  }

  /** The main block of the script. `pick` stands for `random.choice`; `metaOrder`
      and `order` are the orders in which the two dictionaries are visited. The
      run is the one the specification functions describe: the probe set map is
      `Resolve` of the comparison and membership maps, and the streams are `Emit`
      of the header lines and `AllPairs` over the probe set map, against the
      intensity and detail indexes. */
  method TransformMicroarrays(comparison: seq<Row>, huexMembership: seq<Row>, hugeMembership: seq<Row>,
                              huexIntensityRows: seq<Row>, hugeIntensityRows: seq<Row>,
                              huexDetailRows: seq<Row>, hugeDetailRows: seq<Row>, pick: string -> nat)
    returns (run: Run, ghost metaOrder: seq<string>, ghost order: seq<string>)
    requires InputsWellFormed(comparison, huexMembership, hugeMembership, huexIntensityRows, hugeIntensityRows,
                              huexDetailRows, hugeDetailRows)
    ensures CandidatesPresent(CrossMap(comparison))
    ensures Enumerates(metaOrder, CrossMap(comparison).Keys) && Covers(metaOrder, CrossMap(comparison))
    ensures var probesetMap := Resolve(metaOrder, CrossMap(comparison), Memberships(map[], hugeMembership),
                                       Memberships(map[], huexMembership), pick);
            && Enumerates(order, probesetMap.Keys) && InMap(order, probesetMap)
            && run == Emit(Headers(HeaderOf(None, hugeIntensityRows), HeaderOf(None, huexIntensityRows)),
                           AllPairs(order, probesetMap, DetailIndex(map[], hugeDetailRows), DetailIndex(map[], huexDetailRows)),
                           IntensityIndex(map[], hugeIntensityRows), IntensityIndex(map[], huexIntensityRows))
  {
    var probesetMap;
    probesetMap, metaOrder := BuildProbesetMap(comparison, huexMembership, hugeMembership, pick);
    run, order := WriteIntensities(probesetMap, huexIntensityRows, hugeIntensityRows, huexDetailRows, hugeDetailRows);
  }
}
