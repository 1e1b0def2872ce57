/** The records of the microarray script and the two per-platform indices
    built from its input files: the probe intensity file (probe id to its
    intensity record) and the probe set detail file (probe set id to the
    probes it contains). */
module ProbeFiles {
  import opened Wrappers
  import opened Text
  import opened RecordIndex

  /** One row of an intensity file: seven fixed fields, then one intensity
      per sample column. */
  datatype ProbeIntensity = ProbeIntensity(
    probeId: string, x: string, y: string, probeType: string,
    probesetId: string, probesetType: string, block: string,
    intensities: seq<string>)

  /** The fields of a record, as they stand in its row. */
  function Fields(p: ProbeIntensity): seq<string>
  {
    [p.probeId, p.x, p.y, p.probeType, p.probesetId, p.probesetType, p.block] + p.intensities
  }

  /** `ProbeIntensity.__repr__`: the fields joined by tabs. */
  function Repr(p: ProbeIntensity): string
  {
    Join(Fields(p), '\t')
  }

  /** `ProbeIntensity.print_as`: the record's line with its probe id and its
      probe set id replaced by the given ones. */
  function PrintAs(p: ProbeIntensity, probeId: string, probesetId: string): string
  {
    Join([probeId, p.x, p.y, p.probeType, probesetId, p.probesetType, p.block] + p.intensities, '\t')
  }

  /** Printing a record under its own identifiers is its plain rendering. */
  lemma PrintAsOwnIds(p: ProbeIntensity)
    ensures PrintAs(p, p.probeId, p.probesetId) == Repr(p)
  {
  }

  /** The rendering is the seven fixed fields followed by the intensities,
      tab-joined, and can be read back field by field. */
  lemma ReprFields(p: ProbeIntensity)
    requires FreeOf(Fields(p), '\t')
    ensures Split(Repr(p), '\t') == Fields(p)
    ensures |Fields(p)| == 7 + |p.intensities|
    ensures Fields(p)[7..] == p.intensities
  {
    SplitJoin(Fields(p), '\t');
  }

  /** `print_as` differs from the plain rendering in field 0 (the new probe
      id) and field 4 (the new probe set id) only. */
  lemma PrintAsFields(p: ProbeIntensity, probeId: string, probesetId: string)
    requires FreeOf(Fields(p), '\t') && '\t' !in probeId && '\t' !in probesetId
    ensures Split(PrintAs(p, probeId, probesetId), '\t') == Fields(p)[0 := probeId][4 := probesetId]
  {
    var fs := Fields(p)[0 := probeId][4 := probesetId];
    assert fs == [probeId, p.x, p.y, p.probeType, probesetId, p.probesetType, p.block] + p.intensities;
    assert FreeOf(fs, '\t') by {
      forall i | 0 <= i < |fs|
        ensures '\t' !in fs[i]
      {
        if i != 0 && i != 4 {
          assert fs[i] == Fields(p)[i];
        }
      }
    }
    SplitJoin(fs, '\t');
  }

  /** A probe as described by one row of a probe set detail file. */
  datatype Probe = Probe(
    probeId: string, probeType: string, gcCount: string, probeLength: string,
    interrogationPosition: string, sequence: string)

  /** `Probe.__eq__`: probes are equal when their sequences are; their
      platform-specific identifiers play no part. */
  predicate SameProbe(a: Probe, b: Probe)
  {
    a.sequence == b.sequence
  }

  /** `Probeset`: a probe set id and its probes, in the order added. */
  class Probeset {
    const probesetId: string
    var probes: seq<Probe>

    constructor (probesetId: string)
      ensures this.probesetId == probesetId && probes == []
    {
      this.probesetId := probesetId;
      probes := [];
    }

    /** `Probeset.add_probe`: appends in place. */
    method AddProbe(probe: Probe)
      modifies this
      ensures probes == old(probes) + [probe]
    {
      probes := probes + [probe];
    }
  }

  /** Rows of an intensity file that are stored: all but comments (header
      rows are stored as records too: the parse loop has no `continue` for
      them). */
  predicate IsRecordRow(row: Row)
  {
    !IsComment(row)
  }

  /** The record built from a row with at least seven fields. */
  function RecordOfRow(row: Row): ProbeIntensity
    requires |row| >= 7
  {
    ProbeIntensity(row[0], row[1], row[2], row[3], row[4], row[5], row[6], row[7..])
  }

  /** A record built from a row has that row as its fields, so its
      rendering copies the input line verbatim. */
  lemma RecordOfRowFields(row: Row)
    requires |row| >= 7
    ensures Fields(RecordOfRow(row)) == row
  {
    var p := RecordOfRow(row);
    var fs := Fields(p);
    forall i | 0 <= i < |row|
      ensures fs[i] == row[i]
    {
      if i >= 7 {
        assert fs[i] == p.intensities[i - 7];
      }
    }
  }

  /** Every stored row of an intensity file has the seven fixed fields. */
  predicate IntensityRowsWellFormed(rows: seq<Row>)
  {
    forall i :: 0 <= i < |rows| && IsRecordRow(rows[i]) ==> |rows[i]| >= 7
  }

  /** The probe index an intensity file's parse loop builds from `init`. */
  function IntensityIndex(init: map<string, ProbeIntensity>, rows: seq<Row>): map<string, ProbeIntensity>
    requires IntensityRowsWellFormed(rows)
  {
    IndexRows(init, rows, IsRecordRow, RecordOfRow)
  }

  /** The header the parse loop keeps: the stripped line of the last header
      row, or `init` when there is none. */
  function HeaderOf(init: Option<string>, rows: seq<Row>): Option<string>
    decreases |rows|
  {
    if rows == [] then init
    else
      var last := rows[|rows| - 1];
      if !IsComment(last) && IsHeader(last) then Some(Join(last, '\t'))
      else HeaderOf(init, rows[..|rows| - 1])
  }

  /** The header is the line of the last header row. */
  lemma {:induction false} HeaderIsLastHeaderRow(init: Option<string>, rows: seq<Row>, i: nat)
    requires i < |rows| && IsHeader(rows[i])
    requires forall j :: i < j < |rows| ==> !IsHeader(rows[j])
    ensures HeaderOf(init, rows) == Some(Join(rows[i], '\t'))
    decreases |rows|
  {
    if i < |rows| - 1 {
      var front := rows[..|rows| - 1];
      assert front[i] == rows[i];
      forall j | i < j < |front|
        ensures !IsHeader(front[j])
      {
        assert front[j] == rows[j];
      }
      HeaderIsLastHeaderRow(init, front, i);
    }
  }

  /** Without a header row the header stays as it was. */
  lemma {:induction false} HeaderWithoutHeaderRow(init: Option<string>, rows: seq<Row>)
    requires forall j :: 0 <= j < |rows| ==> !IsHeader(rows[j])
    ensures HeaderOf(init, rows) == init
    decreases |rows|
  {
    if rows != [] {
      var front := rows[..|rows| - 1];
      forall j | 0 <= j < |front|
        ensures !IsHeader(front[j])
      {
        assert front[j] == rows[j];
      }
      HeaderWithoutHeaderRow(init, front);
    }
  }

  /** A header row is also stored as a record under its first field. */
  lemma HeaderRowIsStored(init: map<string, ProbeIntensity>, rows: seq<Row>, i: nat)
    requires IntensityRowsWellFormed(rows)
    requires i < |rows| && IsHeader(rows[i])
    ensures rows[i][0] in IntensityIndex(init, rows)
  {
    assert !IsComment(rows[i]);
    IndexRowsKeys(init, rows, IsRecordRow, RecordOfRow, rows[i][0]);
    assert KeyIs(rows[i], rows[i][0]);
  }

  /** `ProbeIntensityFile`: the header line and the probe index of one
      intensity file. */
  class ProbeIntensityFile {
    var header: Option<string>
    var probes: map<string, ProbeIntensity>

    /** `__init__`: an empty index, then `parse` of the file's rows. */
    constructor (rows: seq<Row>)
      requires IntensityRowsWellFormed(rows)
      ensures header == HeaderOf(None, rows)
      ensures probes == IntensityIndex(map[], rows)
    {
      header := None;
      probes := map[];
      new;
      Parse(rows);
    }

    /** `parse`: comment rows are dropped; a header row is kept as the
        header and, like every other row, stored under its first field,
        replacing an earlier row with the same probe id. */
    method Parse(rows: seq<Row>)
      requires IntensityRowsWellFormed(rows)
      modifies this
      ensures header == HeaderOf(old(header), rows)
      ensures probes == IntensityIndex(old(probes), rows)
    {
      var i := 0;
      while i < |rows|
        invariant 0 <= i <= |rows|
        invariant header == HeaderOf(old(header), rows[..i])
        invariant probes == IntensityIndex(old(probes), rows[..i])
      {
        var row := rows[i];
        assert rows[..i + 1][..i] == rows[..i];
        if IsComment(row) {
          i := i + 1;
          continue;
        }
        if IsHeader(row) {
          header := Some(Join(row, '\t'));
        }
        probes := probes[row[0] := RecordOfRow(row)];
        i := i + 1;
      }
      assert rows[..i] == rows;
    }

    /** `__getitem__`: the record stored under a probe id, `None` on a miss. */
    function Get(probeId: string): (r: Option<ProbeIntensity>)
      reads this
      ensures r == None <==> probeId !in probes
      ensures r != None ==> r.value == probes[probeId]
    {
      if probeId in probes then Some(probes[probeId]) else None
    }
  }

  /** Rows of a detail file that describe a probe: neither comment nor
      header. */
  predicate IsDetailRow(row: Row)
  {
    !IsComment(row) && !IsHeader(row)
  }

  /** The probe set id of a detail row. */
  function ProbesetOfRow(row: Row): string
    requires |row| >= 7
  {
    row[0]
  }

  /** The probe described by a detail row. */
  function ProbeOfRow(row: Row): Probe
    requires |row| >= 7
  {
    Probe(row[1], row[2], row[3], row[4], row[5], row[6])
  }

  /** Every probe row of a detail file has the probe set id and six probe
      fields. */
  predicate DetailRowsWellFormed(rows: seq<Row>)
  {
    forall i :: 0 <= i < |rows| && IsDetailRow(rows[i]) ==> |rows[i]| >= 7
  }

  /** The probe set index a detail file's parse loop builds from `init`:
      every probe set id of a probe row, with the probes of its rows in row
      order after those it already had. */
  function DetailIndex(init: map<string, seq<Probe>>, rows: seq<Row>): map<string, seq<Probe>>
    requires DetailRowsWellFormed(rows)
  {
    GroupAll(init, rows, IsDetailRow, ProbesetOfRow, ProbeOfRow)
  }

  /** The probes of one probe set id: one per probe row with that id, in
      row order. */
  function ProbesOf(rows: seq<Row>, probesetId: string): seq<Probe>
    requires DetailRowsWellFormed(rows)
  {
    Group(rows, IsDetailRow, ProbesetOfRow, ProbeOfRow, probesetId)
  }

  /** A probe set is present after parsing an empty index iff some probe
      row names it, and then holds exactly the probes of its rows, in row
      order. */
  lemma DetailIndexFromEmpty(rows: seq<Row>, probesetId: string)
    requires DetailRowsWellFormed(rows)
    ensures probesetId in DetailIndex(map[], rows) <==>
            exists i :: 0 <= i < |rows| && IsDetailRow(rows[i]) && KeyIs(rows[i], probesetId)
    ensures probesetId in DetailIndex(map[], rows) ==> DetailIndex(map[], rows)[probesetId] == ProbesOf(rows, probesetId)
    ensures probesetId in DetailIndex(map[], rows) ==> |DetailIndex(map[], rows)[probesetId]| > 0
  {
    GroupNonEmpty(rows, IsDetailRow, ProbesetOfRow, ProbeOfRow, probesetId);
    if probesetId in GroupKeys(rows, IsDetailRow, ProbesetOfRow, ProbeOfRow) {
      var i :| 0 <= i < |rows| && IsDetailRow(rows[i]) && ProbesetOfRow(rows[i]) == probesetId;
      assert KeyIs(rows[i], probesetId);
    }
    if exists i :: 0 <= i < |rows| && IsDetailRow(rows[i]) && KeyIs(rows[i], probesetId) {
      var i :| 0 <= i < |rows| && IsDetailRow(rows[i]) && KeyIs(rows[i], probesetId);
      assert ProbesetOfRow(rows[i]) == probesetId;
    }
  }

  /** `ProbesetDetailFile`: one `Probeset` object per probe set id. */
  class ProbesetDetailFile {
    var probesets: map<string, Probeset>

    /** Distinct probe set ids own distinct `Probeset` objects, so adding a
        probe to one leaves the others as they were. */
    ghost predicate Valid()
      reads this
    {
      forall a, b :: a in probesets && b in probesets && a != b ==> probesets[a] != probesets[b]
    }

    /** The probes of every probe set. */
    ghost function Contents(): map<string, seq<Probe>>
      reads this, probesets.Values
    {
      map k | k in probesets :: probesets[k].probes
    }

    /** `__init__`: an empty index, then `parse` of the file's rows. */
    constructor (rows: seq<Row>)
      requires DetailRowsWellFormed(rows)
      ensures Valid()
      ensures Contents() == DetailIndex(map[], rows)
    {
      probesets := map[];
      new;
      Parse(rows);
    }

    /** `parse`: comment and header rows are skipped; every other row adds
        its probe to its probe set, which is created on first sight. */
    method Parse(rows: seq<Row>)
      requires Valid() && DetailRowsWellFormed(rows)
      modifies this, probesets.Values
      ensures Valid()
      ensures Contents() == DetailIndex(old(Contents()), rows)
    {
      GroupAllNoRows(Contents(), IsDetailRow, ProbesetOfRow, ProbeOfRow);
      assert rows[..0] == [];
      var i := 0;
      while i < |rows|
        invariant 0 <= i <= |rows|
        invariant Valid()
        invariant forall k :: k in probesets ==> probesets[k] in old(probesets.Values) || fresh(probesets[k])
        invariant Contents() == DetailIndex(old(Contents()), rows[..i])
      {
        var row := rows[i];
        assert rows[..i + 1] == rows[..i] + [row];
        GroupAllStep(old(Contents()), rows[..i], row, IsDetailRow, ProbesetOfRow, ProbeOfRow);
        if IsComment(row) {
          i := i + 1;
          continue;
        }
        if IsHeader(row) {
          i := i + 1;
          continue;
        }
        AddRow(row);
        i := i + 1;
      }
      assert rows[..i] == rows;
    }

    /** One probe row of `parse`: a new `Probeset` is made for the row, and
        either stored with the row's probe (first sight of the probe set id)
        or dropped while the probe goes to the stored one. */
    method AddRow(row: Row)
      requires Valid() && |row| >= 7
      modifies this, probesets.Values
      ensures Valid()
      ensures forall k :: k in probesets ==> probesets[k] in old(probesets.Values) || fresh(probesets[k])
      ensures Contents() == old(Contents())[row[0] := Lookup(old(Contents()), row[0]) + [ProbeOfRow(row)]]
    {
      var probe := ProbeOfRow(row);
      var probeset := new Probeset(row[0]);
      if row[0] !in probesets {
        probeset.AddProbe(probe);
        probesets := probesets[row[0] := probeset];
      } else {
        var existing := probesets[row[0]];
        existing.AddProbe(probe);
        assert forall k :: k in probesets && k != row[0] ==> probesets[k] != existing;
      }
    }

    /** `__getitem__`: the probes of a probe set, `None` on a miss. */
    function Get(probesetId: string): (r: Option<seq<Probe>>)
      reads this, probesets.Values
      ensures r == None <==> probesetId !in probesets
      ensures r != None ==> r.value == Contents()[probesetId]
    {
      if probesetId in probesets then Some(probesets[probesetId].probes) else None
    }
  }
}
