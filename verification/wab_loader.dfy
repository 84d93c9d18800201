/**
  The WAB loaders: the table `pd.DataFrame(registros).rename(columns=WAB_COLS)`
  built from the records of a TXT export or of the JSON file the converter
  writes.
 */
module WabLoader {
  import opened Base
  import opened Text
  import opened Frame
  import opened WabText

  /** `WAB_COLS`: the export's headers and the column names the analyser expects. */
  const WabCols: Record := [
    ("DATA", "data"),
    ("VALOR PAGO", "valor_pago"),
    ("VALOR TOTAL", "valor_total"),
    ("DESCRIÇÃO", "descricao"),
    ("MODO DE PAGAMTO", "forma_pagamento"),
    ("NOME DO PACIENTE (FORNECEDOR)", "paciente"),
    ("OBS", "obs")
  ]

  /** `rename(columns=mapping)` on one label: a mapped label gets its name, anything else is kept. */
  function Relabel(mapping: Record, k: string): string {
    match Lookup(mapping, k)
    case Some(n) => n
    case None => k
  }

  /** `rename(columns=WAB_COLS)` on one label. */
  function Rename(k: string): string {
    Relabel(WabCols, k)
  }

  /** In a record without repeated keys, each key looks up its own value. */
  lemma {:induction false} LookupAt(rec: Record, j: nat)
    requires WfRecord(rec) && j < |rec|
    ensures Lookup(rec, rec[j].0) == Some(rec[j].1)
    decreases j
  {
    if j > 0 {
      assert rec[0].0 != rec[j].0 by {
        assert Keys(rec)[0] == rec[0].0 && Keys(rec)[j] == rec[j].0;
      }
      assert WfRecord(rec[1..]) by {
        assert forall i :: 0 <= i < |rec| - 1 ==> Keys(rec[1..])[i] == Keys(rec)[i + 1];
      }
      LookupAt(rec[1..], j - 1);
    }
  }

  /** A mapping without repeated labels renames exactly its own labels, each to its own name. */
  lemma RelabelExactly(mapping: Record, k: string)
    requires WfRecord(mapping)
    ensures forall j :: 0 <= j < |mapping| ==> Relabel(mapping, mapping[j].0) == mapping[j].1
    ensures k !in Keys(mapping) ==> Relabel(mapping, k) == k
  {
    forall j | 0 <= j < |mapping|
      ensures Relabel(mapping, mapping[j].0) == mapping[j].1
    {
      LookupAt(mapping, j);
    }
  }

  /** The renaming maps exactly the seven WAB headers, each to its own name, and keeps every other label. */
  lemma RenameExactly(k: string)
    ensures forall j :: 0 <= j < |WabCols| ==> Rename(WabCols[j].0) == WabCols[j].1
    ensures k !in Keys(WabCols) ==> Rename(k) == k
  {
    assert WfRecord(WabCols);
    RelabelExactly(WabCols, k);
  }

  /** `ks` after `cols`, minus the names `cols` already has. */
  function AddNew(cols: seq<string>, ks: seq<string>): (r: seq<string>)
    requires Distinct(cols) && Distinct(ks)
    ensures Distinct(r)
    ensures forall k :: k in r <==> k in cols || k in ks
    ensures |r| >= |cols| && r[..|cols|] == cols
  {
    var extra := Filter(ks, (k: string) => k !in cols);
    FilterDistinct(ks, (k: string) => k !in cols);
    assert forall j :: 0 <= j < |extra| ==> extra[j] !in cols by {
      forall j | 0 <= j < |extra|
        ensures extra[j] !in cols
      {
        assert extra[j] in extra;
      }
    }
    var r := cols + extra;
    assert r[..|cols|] == cols;
    r
  }

  /** The columns of `pd.DataFrame(records)`: every key, in order of first appearance. */
  function ColumnsOf(records: seq<Record>): (cols: seq<string>)
    requires forall j :: 0 <= j < |records| ==> WfRecord(records[j])
    ensures Distinct(cols)
    ensures forall k :: k in cols <==> exists j :: 0 <= j < |records| && k in Keys(records[j])
    decreases |records|
  {
    if |records| == 0 then []
    else
      var n := |records| - 1;
      var init := records[..n];
      var before := ColumnsOf(init);
      ColumnsStep(records, init, before);
      assert WfRecord(records[n]);
      AddNew(before, Keys(records[n]))
  }

  /** The keys a record list holds are those of its last record and of the ones before it. */
  lemma ColumnsStep(records: seq<Record>, init: seq<Record>, before: seq<string>)
    requires |records| > 0 && init == records[..|records| - 1]
    requires forall k :: k in before <==> exists j :: 0 <= j < |init| && k in Keys(init[j])
    ensures forall k :: (k in before || k in Keys(records[|records| - 1])) <==>
      exists j :: 0 <= j < |records| && k in Keys(records[j])
  {
    var n := |records| - 1;
    forall k | exists j :: 0 <= j < |records| && k in Keys(records[j])
      ensures k in before || k in Keys(records[n])
    {
      var j :| 0 <= j < |records| && k in Keys(records[j]);
      if j < n {
        assert init[j] == records[j];
      }
    }
    forall k | k in before
      ensures exists j :: 0 <= j < |records| && k in Keys(records[j])
    {
      var j :| 0 <= j < n && k in Keys(init[j]);
      assert init[j] == records[j];
    }
  }

  /** The record with every key renamed. */
  function RenameRecord(rec: Record): (r: Record)
    ensures |r| == |rec|
    ensures forall j :: 0 <= j < |rec| ==> r[j] == (Rename(rec[j].0), rec[j].1)
  {
    seq(|rec|, j requires 0 <= j < |rec| => (Rename(rec[j].0), rec[j].1))
  }

  /** One record as a row of text cells; a name the record lacks is NaN. */
  function RowOf(rec: Record): (row: Row)
    ensures forall k :: k in row <==> k in Keys(rec)
    ensures forall k :: k in row ==> Lookup(rec, k).Some? && row[k] == Str(Lookup(rec, k).value)
  {
    map k | k in Keys(rec) :: Str(Lookup(rec, k).value)
  }

  /** `pd.DataFrame(records).rename(columns=WAB_COLS)`. */
  function FrameOf(records: seq<Record>): (t: Table)
    requires forall j :: 0 <= j < |records| ==> WfRecord(records[j])
    ensures |t.rows| == |records|
  {
    var cols := ColumnsOf(records);
    Table(seq(|cols|, i requires 0 <= i < |cols| => Rename(cols[i])),
          seq(|records|, j requires 0 <= j < |records| => RowOf(RenameRecord(records[j]))))
  }

  /** A key the other keys of its record do not rename onto. */
  predicate SoleSource(rec: Record, k: string) {
    forall i :: 0 <= i < |rec| && Rename(rec[i].0) == Rename(k) ==> rec[i].0 == k
  }

  /**
    The table has one row per record; a column for every renamed key; and
    in record `j`'s row the renamed column of each of its keys holds that
    key's value, while a column none of its keys renames onto is NaN.
   */
  lemma FrameCells(records: seq<Record>, j: nat, k: string)
    requires forall i :: 0 <= i < |records| ==> WfRecord(records[i])
    requires j < |records|
    ensures k in Keys(records[j]) ==> Rename(k) in FrameOf(records).columns
    ensures k in Keys(records[j]) && SoleSource(records[j], k) ==>
      Get(FrameOf(records).rows[j], Rename(k)) == Str(Lookup(records[j], k).value)
    ensures (forall i :: 0 <= i < |records[j]| ==> Rename(records[j][i].0) != k) ==>
      Get(FrameOf(records).rows[j], k) == Missing
  {
    var rec := records[j];
    var rr := RenameRecord(rec);
    var cols := ColumnsOf(records);
    if k in Keys(rec) {
      assert k in cols;
      var i :| 0 <= i < |cols| && cols[i] == k;
      assert FrameOf(records).columns[i] == Rename(k);
      if SoleSource(rec, k) {
        RenamedLookup(rec, k);
      }
    }
    if forall i :: 0 <= i < |rec| ==> Rename(rec[i].0) != k {
      assert k !in Keys(rr);
    }
  }

  /** Renaming keys that no other key renames onto carries the value along. */
  lemma {:induction false} RenamedLookup(rec: Record, k: string)
    requires k in Keys(rec) && SoleSource(rec, k)
    ensures Lookup(RenameRecord(rec), Rename(k)) == Lookup(rec, k)
    decreases |rec|
  {
    var rr := RenameRecord(rec);
    if rec[0].0 != k {
      assert Rename(rec[0].0) != Rename(k);
      assert RenameRecord(rec[1..]) == rr[1..];
      assert k in Keys(rec[1..]) by {
        var i :| 0 <= i < |rec| && rec[i].0 == k;
        assert Keys(rec[1..])[i - 1] == k;
      }
      assert SoleSource(rec[1..], k) by {
        forall i | 0 <= i < |rec[1..]| && Rename(rec[1..][i].0) == Rename(k)
          ensures rec[1..][i].0 == k
        {
          assert rec[1..][i] == rec[i + 1];
        }
      }
      RenamedLookup(rec[1..], k);
    }
  }

  /** `ler_wab_txt` on the file's lines. */
  function ReadWabTxt(lines: seq<string>): Table {
    NoEmptyRecords(lines);
    FrameOf(ParseRecords(lines))
  }

  /** `ler_wab_json` on the decoded JSON list of records. */
  function ReadWabJson(records: seq<Record>): Table
    requires forall j :: 0 <= j < |records| ==> WfRecord(records[j])
  {
    FrameOf(records)
  }

  /** What the converter writes: to `json_path`, or to the default path, the records of the TXT file. */
  datatype Conversion = Conversion(jsonPath: string, records: seq<Record>)

  /** `converter_wab_txt_para_json`, with the writing left out. */
  function ConvertWabTxt(txtPath: string, jsonPath: Option<string>, lines: seq<string>): (c: Conversion)
    ensures jsonPath.Some? ==> c.jsonPath == jsonPath.value
    ensures jsonPath.None? ==> c.jsonPath == DefaultJsonPath(txtPath)
    ensures forall j :: 0 <= j < |c.records| ==> WfRecord(c.records[j]) && |c.records[j]| > 0
  {
    NoEmptyRecords(lines);
    Conversion(if jsonPath.Some? then jsonPath.value else DefaultJsonPath(txtPath), ParseRecords(lines))
  }

  /**
    Converting and then reading the JSON file gives the table reading the
    TXT file gives; a file holding one block of field lines becomes a table
    of one row.
   */
  lemma ConvertThenRead(txtPath: string, lines: seq<string>)
    ensures ReadWabJson(ConvertWabTxt(txtPath, None, lines).records) == ReadWabTxt(lines)
    ensures |ReadWabTxt(lines).rows| == |ParseRecords(lines)|
    ensures |lines| > 0 && (forall j :: 0 <= j < |lines| ==> !Blank(lines[j]) && ':' in Strip(lines[j])) ==>
      |ReadWabTxt(lines).rows| == 1
  {
    if |lines| > 0 && (forall j :: 0 <= j < |lines| ==> !Blank(lines[j]) && ':' in Strip(lines[j])) {
      OneBlock(lines);
    }
  }
}
