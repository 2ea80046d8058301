/** The text parsers of the breast-cancer dataset, read over a file's
    contents rather than the file: the expression profiles
    (`readExpressionProfile`), the clinical table (`getClinicalData`) and
    the GMT gene-set list (`getGeneSetData`).  Each reader comes with a
    writer of the layout it expects and a round trip through the two. */
module Parsers {
  import opened Outcome
  import opened Text
  import opened Data

  /** A field that neither a tab nor a newline can cut. */
  predicate Plain(s: string) {
    '\t' !in s && '\n' !in s
  }

  /** The rows before the first empty one: the loops that `break` on an
      empty row. */
  function UntilEmpty(rows: seq<string>): (r: seq<string>)
    ensures |r| <= |rows| && r == rows[..|r|]
    ensures forall k :: 0 <= k < |r| ==> r[k] != ""
    ensures |r| < |rows| ==> rows[|r|] == ""
  {
    if |rows| == 0 || rows[0] == "" then []
    else
      var rest := UntilEmpty(rows[1..]);
      assert [rows[0]] + rows[1..][..|rest|] == rows[..|rest| + 1];
      [rows[0]] + rest
  }

  /** A file's text: its lines, each ended by a newline. */
  function Lines(rows: seq<string>): string {
    Join(rows + [""], '\n')
  }

  lemma SplitLines(rows: seq<string>)
    requires forall k :: 0 <= k < |rows| ==> '\n' !in rows[k]
    ensures Split(Lines(rows), '\n') == rows + [""]
  {
    var parts := rows + [""];
    assert forall k :: 0 <= k < |parts| ==> '\n' !in parts[k] by {
      forall k | 0 <= k < |parts|
        ensures '\n' !in parts[k]
      {
        if k < |rows| {
          assert parts[k] == rows[k];
        }
      }
    }
    SplitJoin(parts, '\n');
  }

  /** The empty line a file ends with stops the reading loops. */
  lemma {:induction false} UntilEmptyStops(rows: seq<string>)
    requires forall k :: 0 <= k < |rows| ==> rows[k] != ""
    ensures UntilEmpty(rows + [""]) == rows
    decreases |rows|
  {
    if |rows| > 0 {
      assert (rows + [""])[1..] == rows[1..] + [""];
      UntilEmptyStops(rows[1..]);
    }
  }

  /** A separator-free piece joined into a line does not bring the
      character in. */
  lemma {:induction false} JoinFree(parts: seq<string>, c: char, sep: char)
    requires |parts| >= 1 && c != sep
    requires forall k :: 0 <= k < |parts| ==> c !in parts[k]
    ensures c !in Join(parts, sep)
    decreases |parts|
  {
    if |parts| > 1 {
      JoinFree(parts[1..], c, sep);
    }
  }

  /** Two or more pieces are glued by at least one separator. */
  lemma JoinHasSeparator(parts: seq<string>, sep: char)
    requires |parts| >= 2
    ensures sep in Join(parts, sep)
  {
    assert Join(parts, sep)[|parts[0]|] == sep;
  }

  // GMT gene sets

  /** One GMT line: the set's name, its URL, then its genes, tab-separated;
      a line without a tab has no URL and raises `IndexError`. */
  function GeneSetRow(row: string): (r: Result<GeneSet>)
    ensures r.Ok? <==> '\t' in row
    ensures r.Err? ==> r.error == IndexError
    ensures r.Ok? ==> Join([r.value.name, r.value.url] + r.value.genes, '\t') == row
  {
    var info := Split(row, '\t');
    if |info| < 2 then Err(IndexError)
    else
      assert info == [info[0], info[1]] + info[2..];
      Ok(GeneSet(info[0], info[1], info[2..]))
  }

  function GeneSetRows(rows: seq<string>): (r: Result<seq<GeneSet>>)
    ensures r.Ok? <==> forall k :: 0 <= k < |rows| ==> '\t' in rows[k]
    ensures r.Err? ==> r.error == IndexError
    ensures r.Ok? ==> |r.value| == |rows| && forall k :: 0 <= k < |rows| ==> GeneSetRow(rows[k]) == Ok(r.value[k])
  {
    MapAll(GeneSetRow, rows)
  }

  /** `getGeneSetData`: one gene set per line up to the first empty line. */
  function GeneSetData(text: string): (r: Result<seq<GeneSet>>)
    ensures r.Ok? ==> forall k :: 0 <= k < |UntilEmpty(Split(text, '\n'))| ==> '\t' in UntilEmpty(Split(text, '\n'))[k]
    ensures r.Err? ==> exists k :: 0 <= k < |UntilEmpty(Split(text, '\n'))| && '\t' !in UntilEmpty(Split(text, '\n'))[k]
    ensures r.Err? ==> r.error == IndexError
    ensures r.Ok? ==> |r.value| == |UntilEmpty(Split(text, '\n'))|
    ensures r.Ok? ==> forall k :: 0 <= k < |r.value| ==>
              Join([r.value[k].name, r.value[k].url] + r.value[k].genes, '\t') == UntilEmpty(Split(text, '\n'))[k]
  {
    GeneSetRows(UntilEmpty(Split(text, '\n')))
  }

  predicate PlainSet(s: GeneSet) {
    Plain(s.name) && Plain(s.url) && forall k :: 0 <= k < |s.genes| ==> Plain(s.genes[k])
  }

  /** The GMT line of one gene set. */
  function GmtLine(s: GeneSet): string {
    Join([s.name, s.url] + s.genes, '\t')
  }

  /** A GMT file listing the sets in order. */
  function GmtText(sets: seq<GeneSet>): string {
    Lines(seq(|sets|, k requires 0 <= k < |sets| => GmtLine(sets[k])))
  }

  lemma GmtLineRoundTrip(s: GeneSet)
    requires PlainSet(s)
    ensures '\n' !in GmtLine(s) && GmtLine(s) != ""
    ensures GeneSetRow(GmtLine(s)) == Ok(s)
  {
    var parts := [s.name, s.url] + s.genes;
    assert forall k :: 2 <= k < |parts| ==> parts[k] == s.genes[k - 2];
    JoinFree(parts, '\n', '\t');
    JoinHasSeparator(parts, '\t');
    SplitJoin(parts, '\t');
    assert parts[2..] == s.genes;
  }

  /** Reading a written GMT file gives back the sets, names, URLs and genes
      in order. */
  lemma GmtRoundTrip(sets: seq<GeneSet>)
    requires forall k :: 0 <= k < |sets| ==> PlainSet(sets[k])
    ensures GeneSetData(GmtText(sets)) == Ok(sets)
  {
    var lines := seq(|sets|, k requires 0 <= k < |sets| => GmtLine(sets[k]));
    forall k | 0 <= k < |sets|
      ensures '\n' !in lines[k] && lines[k] != "" && GeneSetRow(lines[k]) == Ok(sets[k])
    {
      GmtLineRoundTrip(sets[k]);
    }
    SplitLines(lines);
    UntilEmptyStops(lines);
    var r := GeneSetRows(lines);
    assert r.Ok?;
    assert r.value == sets;
  }

  // Clinical data

  /** `clinical_data`: one patient's row, every column kept as text. */
  datatype Clinical = Clinical(
    sampleNum: string, firstSeries: string, posnodes: string, eventMeta: string,
    eventDeath: string, timeSurvival: string, timeRecur: string, timeMeta: string,
    esr1: string, nih: string, stGallen: string, conserv: string,
    c1FromData: string, c1CrossValid: string, c1Used: string)

  /** The columns a clinical row is read from, `row[0]` to `row[14]`. */
  const ClinicalColumns := 15

  /** The columns of a record, in file order. */
  function Columns(c: Clinical): (cols: seq<string>)
    ensures |cols| == ClinicalColumns
  {
    [c.sampleNum, c.firstSeries, c.posnodes, c.eventMeta, c.eventDeath, c.timeSurvival,
     c.timeRecur, c.timeMeta, c.esr1, c.nih, c.stGallen, c.conserv,
     c.c1FromData, c.c1CrossValid, c.c1Used]
  }

  /** One clinical row: columns 0 to 14 in order; columns after the
      fifteenth are ignored, and a shorter row raises `IndexError`. */
  function ClinicalRow(row: string): (r: Result<Clinical>)
    ensures r.Ok? <==> |Split(row, '\t')| >= ClinicalColumns
    ensures r.Err? ==> r.error == IndexError
    ensures r.Ok? ==> Columns(r.value) == Split(row, '\t')[..ClinicalColumns]
  {
    var c := Split(row, '\t');
    if |c| < ClinicalColumns then Err(IndexError)
    else Ok(Clinical(c[0], c[1], c[2], c[3], c[4], c[5], c[6], c[7],
                     c[8], c[9], c[10], c[11], c[12], c[13], c[14]))
  }

  function ClinicalRows(rows: seq<string>): (r: Result<seq<Clinical>>)
    ensures r.Ok? <==> forall k :: 0 <= k < |rows| ==> |Split(rows[k], '\t')| >= ClinicalColumns
    ensures r.Err? ==> r.error == IndexError
    ensures r.Ok? ==> |r.value| == |rows| && forall k :: 0 <= k < |rows| ==> ClinicalRow(rows[k]) == Ok(r.value[k])
  {
    MapAll(ClinicalRow, rows)
  }

  /** The rows `getClinicalData` reads: all but the first (the labels) and
      the last (the empty line after the final newline). */
  function ClinicalBody(rows: seq<string>): (body: seq<string>)
    ensures |body| == if |rows| < 2 then 0 else |rows| - 2
    ensures forall k :: 0 <= k < |body| ==> body[k] == rows[k + 1]
  {
    if |rows| < 2 then [] else rows[1..|rows| - 1]
  }

  /** `getClinicalData`: one record per row between the label row and the
      last line. */
  function ClinicalData(text: string): (r: Result<seq<Clinical>>)
    ensures '\n' !in text ==> r == Ok([])
    ensures r.Err? ==> r.error == IndexError
    ensures r.Ok? ==> |r.value| == |ClinicalBody(Split(text, '\n'))|
    ensures r.Ok? ==> forall k :: 0 <= k < |r.value| ==>
              ClinicalRow(Split(text, '\n')[k + 1]) == Ok(r.value[k])
  {
    ClinicalRows(ClinicalBody(Split(text, '\n')))
  }

  predicate PlainRecord(c: Clinical) {
    forall k :: 0 <= k < ClinicalColumns ==> Plain(Columns(c)[k])
  }

  function ClinicalLine(c: Clinical): string {
    Join(Columns(c), '\t')
  }

  /** A clinical file: a label row, one row per record, and the final
      newline. */
  function ClinicalText(labels: string, records: seq<Clinical>): string {
    Lines([labels] + ClinicalLines(records))
  }

  function ClinicalLines(records: seq<Clinical>): (lines: seq<string>)
    ensures |lines| == |records|
  {
    seq(|records|, k requires 0 <= k < |records| => ClinicalLine(records[k]))
  }

  lemma ClinicalLineRoundTrip(c: Clinical)
    requires PlainRecord(c)
    ensures '\n' !in ClinicalLine(c)
    ensures ClinicalRow(ClinicalLine(c)) == Ok(c)
  {
    JoinFree(Columns(c), '\n', '\t');
    SplitJoin(Columns(c), '\t');
    assert Split(ClinicalLine(c), '\t')[..ClinicalColumns] == Columns(c);
  }

  /** Reading the written record rows gives back the records. */
  lemma ClinicalRowsRoundTrip(records: seq<Clinical>)
    requires forall k :: 0 <= k < |records| ==> PlainRecord(records[k])
    ensures forall k :: 0 <= k < |records| ==> '\n' !in ClinicalLines(records)[k]
    ensures ClinicalRows(ClinicalLines(records)) == Ok(records)
  {
    var lines := ClinicalLines(records);
    forall k | 0 <= k < |records|
      ensures '\n' !in lines[k] && ClinicalRow(lines[k]) == Ok(records[k])
    {
      ClinicalLineRoundTrip(records[k]);
    }
    var r := ClinicalRows(lines);
    assert r.Ok?;
    assert r.value == records;
  }

  /** The rows read from a clinical file are the lines after the labels. */
  lemma ClinicalBodyOfLines(labels: string, lines: seq<string>)
    requires '\n' !in labels
    requires forall k :: 0 <= k < |lines| ==> '\n' !in lines[k]
    ensures ClinicalBody(Split(Lines([labels] + lines), '\n')) == lines
  {
    var rows := [labels] + lines;
    ConsElements(labels, lines);
    SplitLines(rows);
    assert (rows + [""])[1..|rows|] == lines;
  }

  /** Reading a written clinical file gives back the records, whatever the
      label row says. */
  lemma ClinicalRoundTrip(labels: string, records: seq<Clinical>)
    requires '\n' !in labels
    requires forall k :: 0 <= k < |records| ==> PlainRecord(records[k])
    ensures ClinicalData(ClinicalText(labels, records)) == Ok(records)
  {
    ClinicalRowsRoundTrip(records);
    ClinicalBodyOfLines(labels, ClinicalLines(records));
  }

  /** A file without the final newline loses its last record: the last
      line is dropped whatever it holds. */
  lemma ClinicalDropsUnterminatedRow(labels: string, c: Clinical)
    requires '\n' !in labels && PlainRecord(c)
    ensures ClinicalData(labels + "\n" + ClinicalLine(c)) == Ok([])
  {
    ClinicalLineRoundTrip(c);
    assert labels + "\n" + ClinicalLine(c) == Join([labels, ClinicalLine(c)], '\n');
    SplitJoin([labels, ClinicalLine(c)], '\n');
  }

  // Expression profiles

  /** `expression_profile`: one gene's measurements in one sample; every
      measurement is kept as the text of its field. */
  datatype Profile = Profile(
    sampleNum: int, substance: string, gene: string,
    logRatio: string, logError: string, pValue: string, intensity: string, flag: string)

  /** The fields each sample occupies in a data row. */
  const FieldsPerSample := 5

  /** The leading fields of a data row: the substance and the gene. */
  const RowPrefix := 2

  const MissingLabels := "Labels in top two rows missing"
  const BadSampleLabel := "Sample IDs expected or incorrectly formatted"

  /** `idx` holds exactly the positions of the non-empty fields. */
  ghost predicate MarksNonEmpty(fields: seq<string>, idx: seq<int>) {
    forall k {:trigger k in idx} :: 0 <= k < |fields| ==> (k in idx <==> fields[k] != "")
  }

  /** `r` is `fields` with the empty ones dropped: exactly the positions
      of the non-empty fields are picked, in order. */
  ghost predicate FieldsKept(fields: seq<string>, r: seq<string>) {
    exists idx :: Picks(fields, idx, r) && MarksNonEmpty(fields, idx)
  }

  /** The header fields once the empty ones are dropped, order kept. */
  function NonEmpty(fields: seq<string>): (r: seq<string>)
    ensures |r| <= |fields|
    ensures forall x :: x in r <==> x in fields && x != ""
    ensures (forall k :: 0 <= k < |fields| ==> fields[k] != "") ==> r == fields
    ensures FieldsKept(fields, r)
  {
    if |fields| == 0 then
      assert Picks(fields, [], []) && MarksNonEmpty(fields, []);
      []
    else
      var rest := NonEmpty(fields[1..]);
      assert fields == [fields[0]] + fields[1..];
      KeepStep(fields, rest);
      if fields[0] == "" then rest else [fields[0]] + rest
  }

  /** One step of the comprehension: the first field goes in front of the
      kept rest iff it is non-empty. */
  lemma KeepStep(fields: seq<string>, rest: seq<string>)
    requires |fields| > 0 && FieldsKept(fields[1..], rest)
    ensures FieldsKept(fields, if fields[0] == "" then rest else [fields[0]] + rest)
  {
    var idx :| Picks(fields[1..], idx, rest) && MarksNonEmpty(fields[1..], idx);
    var idx' := PickCons(fields, idx, rest, fields[0] != "");
    MarksStep(fields, idx, idx');
    assert Picks(fields, idx', if fields[0] == "" then rest else [fields[0]] + rest) && MarksNonEmpty(fields, idx');
  }

  lemma MarksStep(fields: seq<string>, idx: seq<int>, idx': seq<int>)
    requires |fields| > 0 && MarksNonEmpty(fields[1..], idx)
    requires 0 in idx' <==> fields[0] != ""
    requires forall k :: 1 <= k < |fields| ==> (k in idx' <==> k - 1 in idx)
    ensures MarksNonEmpty(fields, idx')
  {
    forall k | 1 <= k < |fields|
      ensures k in idx' <==> fields[k] != ""
    {
      assert fields[k] == fields[1..][k - 1];
    }
  }

  /** One header label: it must contain `Sample`, and its sample number is
      `int()` of the second space-separated word. */
  function SampleId(field: string): (r: Result<int>)
    ensures r == Err(FileFormatError(BadSampleLabel)) <==> !Contains(field, "Sample")
    ensures r.Err? ==> r.error in {IndexError, ValueError, FileFormatError(BadSampleLabel)}
    ensures r.Err? && r.error == IndexError ==> ' ' !in field
    ensures Contains(field, "Sample") && ' ' !in field ==> r == Err(IndexError)
    ensures Contains(field, "Sample") && ' ' in field ==> r == ParseInt(Split(field, ' ')[1])
  {
    if !Contains(field, "Sample") then Err(FileFormatError(BadSampleLabel))
    else
      var words := Split(field, ' ');
      if |words| < 2 then Err(IndexError) else ParseInt(words[1])
  }

  /** The header loop: the labels' sample numbers in order, or the error of
      the first label that has none. */
  function SampleIds(labels: seq<string>): (r: Result<seq<int>>)
    ensures r.Ok? <==> forall k :: 0 <= k < |labels| ==> SampleId(labels[k]).Ok?
    ensures r.Ok? ==> |r.value| == |labels| && forall k :: 0 <= k < |labels| ==> SampleId(labels[k]) == Ok(r.value[k])
    ensures r.Err? ==> exists k :: 0 <= k < |labels| && SampleId(labels[k]) == Err(r.error) &&
                                   forall j :: 0 <= j < k ==> SampleId(labels[j]).Ok?
  {
    MapAll(SampleId, labels)
  }

  /** What reading a header promises: it reads iff every non-empty
      tab-separated field is a sample label, and then gives one number per
      such field, in header order; otherwise it fails with the error of one
      of those fields. */
  ghost predicate HeaderRead(fields: seq<string>, r: Result<seq<int>>) {
    && (r.Ok? <==> forall f :: f in fields && f != "" ==> SampleId(f).Ok?)
    && (r.Ok? ==> exists labels :: FieldsKept(fields, labels) && |r.value| == |labels| &&
                                   forall k :: 0 <= k < |labels| ==> SampleId(labels[k]) == Ok(r.value[k]))
    && (r.Err? ==> exists f :: f in fields && f != "" && SampleId(f) == Err(r.error))
  }

  /** The sample numbers of the header row. */
  function HeaderIds(header: string): (r: Result<seq<int>>)
    ensures HeaderRead(Split(header, '\t'), r)
  {
    var fields := Split(header, '\t');
    var labels := NonEmpty(fields);
    var r := SampleIds(labels);
    LabelsRead(fields, labels, r);
    r
  }

  lemma LabelsRead(fields: seq<string>, labels: seq<string>, r: Result<seq<int>>)
    requires labels == NonEmpty(fields) && r == SampleIds(labels)
    ensures HeaderRead(fields, r)
  {
    LabelsOk(fields, labels, r);
    if r.Err? {
      var k :| 0 <= k < |labels| && SampleId(labels[k]) == Err(r.error) &&
               forall j :: 0 <= j < k ==> SampleId(labels[j]).Ok?;
      assert labels[k] in labels;
    }
  }

  lemma LabelsOk(fields: seq<string>, labels: seq<string>, r: Result<seq<int>>)
    requires labels == NonEmpty(fields) && r == SampleIds(labels)
    ensures r.Ok? <==> forall f :: f in fields && f != "" ==> SampleId(f).Ok?
  {
    if r.Ok? {
      forall f | f in fields && f != ""
        ensures SampleId(f).Ok?
      {
        assert f in labels;
        var k :| 0 <= k < |labels| && labels[k] == f;
      }
    } else {
      var k :| 0 <= k < |labels| && !SampleId(labels[k]).Ok?;
      assert labels[k] in labels;
    }
  }

  /** Sample `f`'s five measurements, fields `2 + 5f` to `2 + 5f + 4`. */
  function SampleProfile(fields: seq<string>, id: int, f: nat): Profile
    requires RowPrefix + FieldsPerSample * (f + 1) <= |fields|
  {
    var at := RowPrefix + FieldsPerSample * f;
    Profile(id, fields[0], fields[1], fields[at], fields[at + 1], fields[at + 2], fields[at + 3], fields[at + 4])
  }

  /** One data row: a profile per sample, in header order.  Reading
      `fields[1]`, or any of the samples' fields, past the end of the row
      raises `IndexError`. */
  function RowProfiles(row: string, ids: seq<int>): (r: Result<seq<Profile>>)
    ensures r.Ok? <==> |Split(row, '\t')| >= RowPrefix + FieldsPerSample * |ids|
    ensures r.Err? ==> r.error == IndexError
    ensures r.Ok? ==> |r.value| == |ids|
    ensures r.Ok? ==> forall f :: 0 <= f < |ids| ==>
              && r.value[f].sampleNum == ids[f]
              && r.value[f].substance == Split(row, '\t')[0]
              && r.value[f].gene == Split(row, '\t')[1]
  {
    var fields := Split(row, '\t');
    if |fields| < RowPrefix then Err(IndexError)
    else if |fields| < RowPrefix + FieldsPerSample * |ids| then Err(IndexError)
    else Ok(seq(|ids|, f requires 0 <= f < |ids| => SampleProfile(fields, ids[f], f)))
  }

  /** Every row has the substance, the gene and five fields per sample. */
  predicate Wide(rows: seq<string>, samples: nat) {
    forall k :: 0 <= k < |rows| ==> |Split(rows[k], '\t')| >= RowPrefix + FieldsPerSample * samples
  }

  lemma WideSplit(rows: seq<string>, samples: nat)
    requires |rows| > 0
    ensures var n := |rows| - 1;
            Wide(rows, samples) <==> Wide(rows[..n], samples) && |Split(rows[n], '\t')| >= RowPrefix + FieldsPerSample * samples
  {
    InitElements(rows);
  }

  /** The data loop over the rows read, each row's profiles appended in
      row order. */
  function DataProfiles(rows: seq<string>, ids: seq<int>): (r: Result<seq<Profile>>)
    ensures r.Ok? <==> Wide(rows, |ids|)
    ensures r.Err? ==> r.error == IndexError
    ensures r.Ok? ==> |r.value| == |rows| * |ids|
  {
    if |rows| == 0 then Ok([])
    else
      var n := |rows| - 1;
      WideSplit(rows, |ids|);
      var earlier := DataProfiles(rows[..n], ids);
      var last := RowProfiles(rows[n], ids);
      if earlier.Err? || last.Err? then Err(IndexError)
      else
        ProductSucc(n, |ids|);
        Ok(earlier.value + last.value)
  }

  lemma ProductSucc(n: nat, m: nat)
    ensures (n + 1) * m == n * m + m
  {
  }

  /** `readExpressionProfile`: the text must have a second line; the first
      names the samples, the second is skipped, and the data rows run from
      the third line to the first empty one. */
  function ReadExpressionProfile(text: string): (r: Result<seq<Profile>>)
    ensures '\n' !in text <==> r == Err(FileFormatError(MissingLabels))
    ensures r.Err? ==> r.error in {IndexError, ValueError, FileFormatError(MissingLabels), FileFormatError(BadSampleLabel)}
    ensures r.Ok? ==> var rows := Split(text, '\n');
                      && HeaderIds(rows[0]).Ok?
                      && |r.value| == |UntilEmpty(rows[2..])| * |HeaderIds(rows[0]).value|
  {
    var rows := Split(text, '\n');
    if |rows| < 2 then Err(FileFormatError(MissingLabels))
    else
      var ids :- HeaderIds(rows[0]);
      DataProfiles(UntilEmpty(rows[2..]), ids)
  }

  /** The five measurements of one sample in one data row. */
  datatype Measures = Measures(logRatio: string, logError: string, pValue: string, intensity: string, flag: string)

  /** One gene's data row as written: substance, gene, and each sample's
      measurements in header order. */
  datatype ProfileRow = ProfileRow(substance: string, gene: string, measures: seq<Measures>)

  function MeasureFields(m: Measures): (fields: seq<string>)
    ensures |fields| == FieldsPerSample
  {
    [m.logRatio, m.logError, m.pValue, m.intensity, m.flag]
  }

  /** The samples' fields of a data row, five per sample. */
  function SampleFields(ms: seq<Measures>): (fields: seq<string>)
    ensures |fields| == FieldsPerSample * |ms|
    ensures forall f, j :: 0 <= f < |ms| && 0 <= j < FieldsPerSample ==>
              fields[FieldsPerSample * f + j] == MeasureFields(ms[f])[j]
  {
    if |ms| == 0 then []
    else
      var n := |ms| - 1;
      assert forall f :: 0 <= f < n ==> ms[f] == ms[..n][f];
      SampleFields(ms[..n]) + MeasureFields(ms[n])
  }

  predicate PlainRow(row: ProfileRow) {
    && Plain(row.substance) && Plain(row.gene)
    && forall f, j :: 0 <= f < |row.measures| && 0 <= j < FieldsPerSample ==> Plain(MeasureFields(row.measures[f])[j])
  }

  function RowLine(row: ProfileRow): string {
    Join([row.substance, row.gene] + SampleFields(row.measures), '\t')
  }

  /** A header label for sample number `n`. */
  function SampleLabel(n: nat): string {
    "Sample " + ToDecimal(n)
  }

  function HeaderLine(ids: seq<nat>): string {
    if |ids| == 0 then ""
    else Join(seq(|ids|, k requires 0 <= k < |ids| => SampleLabel(ids[k])), '\t')
  }

  /** An expression file: the header row, a second label row, one data row
      per gene, and the final newline. */
  function ExpressionText(ids: seq<nat>, labels: string, rows: seq<ProfileRow>): string {
    Lines([HeaderLine(ids), labels] + seq(|rows|, k requires 0 <= k < |rows| => RowLine(rows[k])))
  }

  /** What reading one written row should give: a profile per sample. */
  function RowExpected(ids: seq<nat>, row: ProfileRow): (r: seq<Profile>)
    requires |row.measures| == |ids|
    ensures |r| == |ids|
  {
    seq(|ids|, f requires 0 <= f < |ids| =>
      var m := row.measures[f];
      Profile(ids[f], row.substance, row.gene, m.logRatio, m.logError, m.pValue, m.intensity, m.flag))
  }

  /** The profiles of all rows, row by row. */
  function Expected(ids: seq<nat>, rows: seq<ProfileRow>): seq<Profile>
    requires forall k :: 0 <= k < |rows| ==> |rows[k].measures| == |ids|
  {
    if |rows| == 0 then []
    else
      var n := |rows| - 1;
      Expected(ids, rows[..n]) + RowExpected(ids, rows[n])
  }

  lemma SampleLabelRoundTrip(n: nat)
    ensures SampleLabel(n) != "" && Plain(SampleLabel(n))
    ensures SampleId(SampleLabel(n)) == Ok(n)
  {
    var s := SampleLabel(n);
    var digits := ToDecimal(n);
    assert OccursAt(s, "Sample", 0);
    assert ' ' !in digits && '\t' !in digits && '\n' !in digits by {
      forall i | 0 <= i < |digits|
        ensures digits[i] != ' ' && digits[i] != '\t' && digits[i] != '\n'
      {
        assert IsDigit(digits[i]);
      }
    }
    assert s == Join(["Sample", digits], ' ');
    JoinFree(["Sample", digits], '\t', ' ');
    JoinFree(["Sample", digits], '\n', ' ');
    SplitJoin(["Sample", digits], ' ');
    DecimalRoundTrip(n);
  }

  /** The written header names exactly the samples, in order. */
  lemma HeaderRoundTrip(ids: seq<nat>)
    ensures '\n' !in HeaderLine(ids)
    ensures HeaderIds(HeaderLine(ids)) == Ok(ids)
  {
    if |ids| > 0 {
      var labels := seq(|ids|, k requires 0 <= k < |ids| => SampleLabel(ids[k]));
      forall k | 0 <= k < |ids|
        ensures labels[k] != "" && Plain(labels[k]) && SampleId(labels[k]) == Ok(ids[k])
      {
        SampleLabelRoundTrip(ids[k]);
      }
      JoinFree(labels, '\n', '\t');
      SplitJoin(labels, '\t');
      var r := SampleIds(labels);
      assert r.Ok?;
      assert r.value == ids;
    }
  }

  lemma RowLineSplit(row: ProfileRow)
    requires PlainRow(row)
    ensures '\n' !in RowLine(row) && RowLine(row) != ""
    ensures Split(RowLine(row), '\t') == [row.substance, row.gene] + SampleFields(row.measures)
  {
    var tail := SampleFields(row.measures);
    var fields := [row.substance, row.gene] + tail;
    forall k | 0 <= k < |fields|
      ensures Plain(fields[k])
    {
      if k >= RowPrefix {
        var f := (k - RowPrefix) / FieldsPerSample;
        var j := (k - RowPrefix) % FieldsPerSample;
        assert k - RowPrefix == FieldsPerSample * f + j;
        assert f < |row.measures|;
        assert fields[k] == tail[FieldsPerSample * f + j] == MeasureFields(row.measures[f])[j];
      } else {
        assert fields[k] == row.substance || fields[k] == row.gene;
      }
    }
    JoinFree(fields, '\n', '\t');
    JoinHasSeparator(fields, '\t');
    SplitJoin(fields, '\t');
  }

  lemma SampleProfileOf(ids: seq<nat>, row: ProfileRow, f: nat)
    requires |row.measures| == |ids| && f < |ids|
    ensures var fields := [row.substance, row.gene] + SampleFields(row.measures);
            RowPrefix + FieldsPerSample * (f + 1) <= |fields| &&
            SampleProfile(fields, ids[f], f) == RowExpected(ids, row)[f]
  {
    var tail := SampleFields(row.measures);
    var fields := [row.substance, row.gene] + tail;
    var at := RowPrefix + FieldsPerSample * f;
    var m := MeasureFields(row.measures[f]);
    assert fields[at] == tail[FieldsPerSample * f + 0] == m[0];
    assert fields[at + 1] == tail[FieldsPerSample * f + 1] == m[1];
    assert fields[at + 2] == tail[FieldsPerSample * f + 2] == m[2];
    assert fields[at + 3] == tail[FieldsPerSample * f + 3] == m[3];
    assert fields[at + 4] == tail[FieldsPerSample * f + 4] == m[4];
  }

  lemma RowRoundTrip(ids: seq<nat>, row: ProfileRow)
    requires PlainRow(row) && |row.measures| == |ids|
    ensures '\n' !in RowLine(row) && RowLine(row) != ""
    ensures RowProfiles(RowLine(row), ids) == Ok(RowExpected(ids, row))
  {
    RowLineSplit(row);
    var r := RowProfiles(RowLine(row), ids);
    assert r.Ok?;
    forall f | 0 <= f < |ids|
      ensures r.value[f] == RowExpected(ids, row)[f]
    {
      SampleProfileOf(ids, row, f);
    }
    assert r.value == RowExpected(ids, row);
  }

  lemma {:induction false} DataRoundTrip(ids: seq<nat>, rows: seq<ProfileRow>)
    requires forall k :: 0 <= k < |rows| ==> PlainRow(rows[k]) && |rows[k].measures| == |ids|
    ensures DataProfiles(seq(|rows|, k requires 0 <= k < |rows| => RowLine(rows[k])), ids) == Ok(Expected(ids, rows))
    decreases |rows|
  {
    if |rows| > 0 {
      var n := |rows| - 1;
      var lines := seq(|rows|, k requires 0 <= k < |rows| => RowLine(rows[k]));
      var earlier := seq(n, k requires 0 <= k < n => RowLine(rows[..n][k]));
      assert lines[..n] == earlier;
      DataRoundTrip(ids, rows[..n]);
      RowRoundTrip(ids, rows[n]);
    }
  }

  /** A file whose header names the samples `ids` is read as its data
      lines. */
  lemma ReadFromLines(header: string, labels: string, lines: seq<string>, ids: seq<int>)
    requires '\n' !in header && '\n' !in labels
    requires forall k :: 0 <= k < |lines| ==> '\n' !in lines[k] && lines[k] != ""
    requires HeaderIds(header) == Ok(ids)
    ensures ReadExpressionProfile(Lines([header, labels] + lines)) == DataProfiles(lines, ids)
  {
    FileLines(header, labels, lines);
  }

  /** The lines of such a file: the header first, the data lines from the
      third line up to the final empty one. */
  lemma FileLines(header: string, labels: string, lines: seq<string>)
    requires '\n' !in header && '\n' !in labels
    requires forall k :: 0 <= k < |lines| ==> '\n' !in lines[k] && lines[k] != ""
    ensures var rows := Split(Lines([header, labels] + lines), '\n');
            |rows| >= 2 && rows[0] == header && UntilEmpty(rows[2..]) == lines
  {
    var all := [header] + ([labels] + lines);
    ConsElements(labels, lines);
    ConsElements(header, [labels] + lines);
    assert all == [header, labels] + lines;
    SplitLines(all);
    DropFromAppend(all, [""], 2);
    assert all[2..] == lines;
    UntilEmptyStops(lines);
  }

  /** Reading a written expression file gives back every gene's profile in
      every sample, row by row and in header order within a row. */
  lemma ExpressionRoundTrip(ids: seq<nat>, labels: string, rows: seq<ProfileRow>)
    requires '\n' !in labels
    requires forall k :: 0 <= k < |rows| ==> PlainRow(rows[k]) && |rows[k].measures| == |ids|
    ensures ReadExpressionProfile(ExpressionText(ids, labels, rows)) == Ok(Expected(ids, rows))
  {
    var lines := seq(|rows|, k requires 0 <= k < |rows| => RowLine(rows[k]));
    forall k | 0 <= k < |rows|
      ensures '\n' !in lines[k] && lines[k] != ""
    {
      RowRoundTrip(ids, rows[k]);
    }
    HeaderRoundTrip(ids);
    ReadFromLines(HeaderLine(ids), labels, lines, ids);
    DataRoundTrip(ids, rows);
  }

  /** Empty fields around and between the labels are dropped: the header
      reads as its two labels. */
  lemma HeaderDropsEmptyFields(a: string, b: string)
    requires a != "" && b != "" && '\t' !in a && '\t' !in b
    ensures HeaderIds(Join(["", a, "", b, ""], '\t')) == SampleIds([a, b])
  {
    var parts := ["", a, "", b, ""];
    SplitJoin(parts, '\t');
    DropEmpty(a, b);
  }

  lemma DropEmpty(a: string, b: string)
    requires a != "" && b != ""
    ensures NonEmpty(["", a, "", b, ""]) == [a, b]
  {
    assert NonEmpty([""]) == [];
    assert NonEmpty([b, ""]) == [b] by {
      assert [b, ""][1..] == [""];
    }
    assert NonEmpty(["", b, ""]) == [b] by {
      assert ["", b, ""][1..] == [b, ""];
    }
    assert NonEmpty([a, "", b, ""]) == [a, b] by {
      assert [a, "", b, ""][1..] == ["", b, ""];
    }
    assert ["", a, "", b, ""][1..] == [a, "", b, ""];
  }

  /** A label without `Sample` is a format error. */
  lemma HeaderNeedsSample()
    ensures HeaderIds("Probe") == Err(FileFormatError(BadSampleLabel))
  {
    SplitWithoutSeparator("Probe", '\t');
    assert !Contains("Probe", "Sample");
  }

  /** A label with no space has no second word. */
  lemma HeaderNeedsSecondWord()
    ensures HeaderIds("Sample") == Err(IndexError)
  {
    SplitWithoutSeparator("Sample", '\t');
    BareSampleLabel();
    assert NonEmpty(["Sample"]) == ["Sample"];
  }

  lemma BareSampleLabel()
    ensures SampleId("Sample") == Err(IndexError)
  {
    SplitWithoutSeparator("Sample", ' ');
    assert OccursAt("Sample", "Sample", 0);
  }

  /** A second word that is not an integer literal is a `ValueError`. */
  lemma HeaderNeedsInteger(c: char)
    requires !IsDigit(c) && !IsSpace(c) && c != '+' && c != '-'
    ensures HeaderIds("Sample " + [c]) == Err(ValueError)
  {
    var field := "Sample " + [c];
    SplitWithoutSeparator(field, '\t');
    assert OccursAt(field, "Sample", 0);
    assert field == Join(["Sample", [c]], ' ');
    SplitJoin(["Sample", [c]], ' ');
    assert SampleId(field) == ParseInt([c]) by {
      assert Split(field, ' ')[1] == [c];
    }
    assert TrimStart([c]) == [c];
    assert TrimEnd([c]) == [c];
    var t := TrimEnd(TrimStart([c]));
    assert t == [c] && !(t[0] == '-' || t[0] == '+');
    assert !IsDigit(t[0]);
    assert ParseInt([c]) == Err(ValueError);
    assert NonEmpty([field]) == [field];
  }
}
