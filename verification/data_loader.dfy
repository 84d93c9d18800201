/**
  The loader of one month's exports: where the files of a month live, how a
  CSV export's header becomes the analyser's column names, the generic
  monetary cleaner, and the table of every source `carregar_dados_mes`
  hands on. The reading of files itself is a parameter: a `Disk` maps each
  path to what the file holds.
 */
module DataLoader {
  import opened Base
  import opened Text
  import opened Decimal
  import opened Money
  import opened Frame
  import opened WabText
  import opened WabLoader
  import opened Analisador

  // ---------------------------------------------------------------------------
  // Column mappings of the CSV exports

  const FaturamentoC6Cols: Record := [
    ("DT_VENDA", "data"),
    ("HR_VENDA", "hora"),
    ("VAL_FAT", "valor_faturado"),
    ("VAL_PARC", "valor_parcela"),
    ("BANDEIRA", "bandeira"),
    ("NUM_CARTAO", "num_cartao"),
    ("OPERACAO", "operacao"),
    ("PARCELAS", "parcelas"),
    ("STATUS", "status")
  ]

  const FaturamentoGdsCols: Record := [
    ("R/D", "tipo"),
    ("Data de emissão", "data_emissao"),
    ("Data de vencimento", "data_vencimento"),
    ("Data de baixa", "data_baixa"),
    ("Responsável", "responsavel"),
    ("Paciente", "paciente"),
    ("Descrição", "descricao"),
    ("Serviços", "servicos"),
    ("Categoria", "categoria"),
    ("Nota fiscal", "nota_fiscal"),
    ("Convênio", "convenio"),
    ("Método", "metodo"),
    ("Caixa", "caixa"),
    ("Valor", "valor"),
    ("Valor líquido", "valor_liquido"),
    ("Agendado", "agendado"),
    ("Pago", "pago"),
    ("Observações", "observacoes")
  ]

  const PagamentoC6Cols: Record := [
    ("Hora da venda", "hora_venda"),
    ("Data da venda", "data_venda"),
    ("Data do recebível", "data_recebivel"),
    ("Valor da venda", "valor_venda"),
    ("Valor da parcela", "valor_parcela"),
    ("Descontos", "descontos"),
    ("Valor do recebível", "valor_recebivel"),
    ("Bandeira do cartão", "bandeira"),
    ("Número do cartão", "num_cartao"),
    ("Tipo de operação", "tipo_operacao"),
    ("Parcelas", "parcelas"),
    ("Status do recebível", "status"),
    ("Código da venda", "codigo_venda"),
    ("Instituição Financeira", "instituicao_financeira"),
    ("CNPJ Instituição Financeira", "cnpj_instituicao")
  ]

  /** The GDS receipts export has the same layout as its invoices export. */
  const PagamentoGdsCols: Record := FaturamentoGdsCols

  // ---------------------------------------------------------------------------
  // `ler_csv`: the header is stripped, then renamed

  /** The index of the first occurrence of `k` in `s`. */
  function Position(s: seq<string>, k: string): (i: nat)
    requires k in s
    ensures i < |s| && s[i] == k
    ensures forall j :: 0 <= j < i ==> s[j] != k
    decreases |s|
  {
    if s[0] == k then 0 else 1 + Position(s[1..], k)
  }

  /** The column names `ler_csv` gives a header: each one stripped, then renamed by the mapping. */
  function CsvColumns(header: seq<string>, mapping: Record): (cols: seq<string>)
    ensures |cols| == |header|
  {
    seq(|header|, i requires 0 <= i < |header| => Relabel(mapping, Strip(header[i])))
  }

  /** The cell in column `i` of a data line; a short line is NaN there. */
  function CsvCell(line: seq<Cell>, i: nat): Cell {
    if i < |line| then line[i] else Missing
  }

  /**
    `ler_csv` on what `read_csv(sep=';')` read: the header and, per line, its
    cells (already typed by `read_csv`); a column named twice after the
    renaming takes the cells of its first occurrence.
   */
  function ReadCsv(header: seq<string>, data: seq<seq<Cell>>, mapping: Record): (t: Table)
    ensures t.columns == CsvColumns(header, mapping) && |t.rows| == |data|
  {
    var cols := CsvColumns(header, mapping);
    Table(cols, seq(|data|, j requires 0 <= j < |data| =>
      map k | k in cols :: CsvCell(data[j], Position(cols, k))))
  }

  /**
    A header cell holding one of the mapping's labels, with any whitespace
    around it, becomes the name the label's first entry gives; a header cell
    naming no label keeps its stripped text.
   */
  lemma CsvHeaderRenamed(mapping: Record, g1: string, j: nat, g2: string, h: string)
    requires j < |mapping| && Trimmed(mapping[j].0)
    requires forall i :: 0 <= i < j ==> mapping[i].0 != mapping[j].0
    requires AllSpace(g1) && AllSpace(g2)
    ensures Relabel(mapping, Strip(g1 + mapping[j].0 + g2)) == mapping[j].1
    ensures Strip(h) !in Keys(mapping) ==> Relabel(mapping, Strip(h)) == Strip(h)
  {
    StripAround(g1, mapping[j].0, g2);
    LookupFirst(mapping, j);
  }

  /** A lookup finds the first entry of its key. */
  lemma {:induction false} LookupFirst(rec: Record, j: nat)
    requires j < |rec| && forall i :: 0 <= i < j ==> rec[i].0 != rec[j].0
    ensures Lookup(rec, rec[j].0) == Some(rec[j].1)
    decreases j
  {
    if j > 0 {
      assert rec[0].0 != rec[j].0;
      assert rec[1..][j - 1] == rec[j];
      LookupFirst(rec[1..], j - 1);
    }
  }

  /**
    In a header whose names stay distinct after the renaming, every data line
    becomes a row holding its `i`-th cell under the `i`-th column name, and
    NaN where the line is short.
   */
  lemma ReadCsvCells(header: seq<string>, data: seq<seq<Cell>>, mapping: Record, j: nat, i: nat)
    requires Distinct(CsvColumns(header, mapping))
    requires j < |data| && i < |header|
    ensures Get(ReadCsv(header, data, mapping).rows[j], CsvColumns(header, mapping)[i]) ==
      (if i < |data[j]| then data[j][i] else Missing)
  {
    var cols := CsvColumns(header, mapping);
    assert Position(cols, cols[i]) == i;
  }

  // ---------------------------------------------------------------------------
  // Paths

  /** `os.path.join(a, b)` on POSIX: an absolute `b` replaces `a`; otherwise one '/' goes between them. */
  function Join(a: string, b: string): (p: string)
    ensures |p| >= |b| && p[|p| - |b|..] == b
    ensures !StartsWith(b, "/") ==> |p| >= |a| && p[..|a|] == a
  {
    if StartsWith(b, "/") then b
    else if a == [] || a[|a| - 1] == '/' then a + b
    else a + "/" + b
  }

  /** A relative name joined to a folder that does not end in '/' is the folder, a '/', and the name. */
  lemma JoinRelative(a: string, b: string)
    requires a != [] && a[|a| - 1] != '/' && (b == [] || b[0] != '/')
    ensures Join(a, b) == a + "/" + b
  {
    if |b| > 0 {
      FirstCharDiffers(b, "/");
    }
  }

  /** The month folders by the month's two digits; March is written without the cedilla. */
  const MonthFolders: Record := [
    ("01", "janeiro"), ("02", "fevereiro"), ("03", "marco"), ("04", "abril"),
    ("05", "maio"), ("06", "junho"), ("07", "julho"), ("08", "agosto"),
    ("09", "setembro"), ("10", "outubro"), ("11", "novembro"), ("12", "dezembro")
  ]

  /** `_get_pasta_mes`: the folder named by the first two characters, 'julho' for anything else. */
  function MonthFolder(mesAno: string): string {
    match Lookup(MonthFolders, Take(mesAno, 2))
    case Some(n) => n
    case None => "julho"
  }

  /**
    Each of the twelve month codes, followed by anything, selects its folder;
    text whose first two characters are not a month code selects 'julho'.
   */
  lemma MonthFolderExactly(mesAno: string)
    ensures forall j :: 0 <= j < |MonthFolders| ==> MonthFolder(MonthFolders[j].0 + mesAno) == MonthFolders[j].1
    ensures Take(mesAno, 2) !in Keys(MonthFolders) ==> MonthFolder(mesAno) == "julho"
  {
    assert WfRecord(MonthFolders);
    forall j | 0 <= j < |MonthFolders|
      ensures MonthFolder(MonthFolders[j].0 + mesAno) == MonthFolders[j].1
    {
      assert Take(MonthFolders[j].0 + mesAno, 2) == MonthFolders[j].0;
      LookupAt(MonthFolders, j);
    }
  }

  // ---------------------------------------------------------------------------
  // `padronizar_valores_monetarios`

  /**
    `float()` of a cleaned text: a number, or NaN for "nan" in any case (what
    `astype(str)` writes for a NaN cell); `None` where `float()` raises.
   */
  function MoneyText(t: string): (r: Option<Cell>)
    ensures r.Some? ==> r.value.Amount? || r.value.Missing?
    ensures r.Some? && r.value.Amount? ==> PyFloat(t) == Some(r.value.x)
  {
    match PyFloat(t)
    case Some(x) => Some(Amount(x))
    case None => if Lower(t) == "nan" then Some(Missing) else None
  }

  /** One cell through `astype(str)`, the generic cleaner and `astype(float)`. */
  function MoneyCell(rt: Runtime, c: Cell): (r: Option<Cell>)
    ensures r.Some? ==> r.value.Amount? || r.value.Missing?
    ensures r.Some? && r.value.Amount? ==> GenericAmount(Render(rt, c)) == Some(r.value.x)
  {
    MoneyText(CleanGeneric(Render(rt, c)))
  }

  /** Every cell of every listed column the table has survives `astype(float)`. */
  predicate Convertible(rt: Runtime, t: Table, cols: seq<string>) {
    forall i, k :: 0 <= i < |t.rows| && k in cols && k in t.columns ==> MoneyCell(rt, Get(t.rows[i], k)).Some?
  }

  /** The cell a convertible cell becomes. */
  function Converted(rt: Runtime, c: Cell): Cell {
    match MoneyCell(rt, c)
    case Some(d) => d
    case None => c
  }

  /**
    `padronizar_valores_monetarios`: every listed column the table has is
    cleaned and read as float; the `ValueError` of a cell `float()` rejects
    escapes. Unlisted columns are not touched.
   */
  function StandardiseMoney(rt: Runtime, t: Table, cols: seq<string>): (r: Result<Table, string>)
    ensures r.Success? <==> Convertible(rt, t, cols)
    ensures r.Failure? ==> r.error == "ValueError: could not convert string to float"
    ensures r.Success? ==> r.value.columns == t.columns && |r.value.rows| == |t.rows|
    ensures r.Success? ==> forall i, k :: 0 <= i < |t.rows| && k in cols && k in t.columns ==>
      MoneyCell(rt, Get(t.rows[i], k)) == Some(Get(r.value.rows[i], k))
    ensures r.Success? ==> forall i, k :: 0 <= i < |t.rows| && (k !in cols || k !in t.columns) ==>
      Get(r.value.rows[i], k) == Get(t.rows[i], k)
  {
    if Convertible(rt, t, cols) then Success(MapColumns(t, cols, c => Converted(rt, c)))
    else Failure("ValueError: could not convert string to float")
  }

  /** An integer cell `read_csv` typed becomes that integer as an amount. */
  lemma MoneyWhole(rt: Runtime, n: int)
    ensures MoneyCell(rt, Whole(n)) == Some(Amount(n as real))
  {
    GenericIntCell(n);
    MoneyOf(rt, Whole(n), ShowInt(n), n as real);
  }

  /** A blank text cell becomes 0. */
  lemma MoneyBlank(rt: Runtime, blank: string)
    requires Strip(blank) == []
    ensures MoneyCell(rt, Str(blank)) == Some(Amount(0.0))
  {
    GenericBlankIsZero(blank);
    MoneyOf(rt, Str(blank), blank, 0.0);
  }

  /**
    A cell whose text the generic cleaner reads as `v` becomes the amount `v`
    (so "R$", whitespace and Brazilian digits become their amount, by
    `GenericRoundTrip`).
   */
  lemma MoneyOf(rt: Runtime, c: Cell, s: string, v: real)
    requires Render(rt, c) == s && GenericAmount(s) == Some(v)
    ensures MoneyCell(rt, c) == Some(Amount(v))
  {
  }

  /**
    The generic cleaner is not idempotent either: a cell that already holds
    the float 15.5, written "15.5", loses its '.' and becomes 155.
   */
  lemma MoneyTenfold(rt: Runtime)
    requires rt.showFloat(15.5) == "15.5"
    ensures MoneyCell(rt, Amount(15.5)) == Some(Amount(155.0))
  {
    var t := Render(rt, Amount(15.5));
    assert t == "15" + "." + "5";
    assert AllDigits("15") && AllDigits("5");
    Text155();
    PointTenfold(t, "15", "5", 155);
    MoneyOf(rt, Amount(15.5), t, 155.0);
  }

  /** A NaN cell stays NaN: `astype(str)` writes "nan", which `float()` reads back as NaN. */
  lemma MoneyNan(rt: Runtime, c: Cell)
    requires c.Missing?
    ensures MoneyCell(rt, c) == Some(Missing)
  {
    assert c == Missing;
    var t := Render(rt, Missing);
    assert t == "nan";
    NanFloat();
    NanLower();
    NanClean();
    NanOf(rt, c, t);
  }

  /** A cell whose cleaned text is "nan" in any case stays NaN. */
  lemma NanOf(rt: Runtime, c: Cell, t: string)
    requires CleanGeneric(Render(rt, c)) == t && PyFloat(t) == None && Lower(t) == "nan"
    ensures MoneyCell(rt, c) == Some(Missing)
  {
  }

  /** "nan" is no decimal literal. */
  lemma NanFloat()
    ensures PyFloat("nan") == None
  {
    var t := "nan";
    assert Trimmed(t) && t[0] == 'n';
    NotNumberStart(t);
  }

  lemma NanLower()
    ensures Lower("nan") == "nan"
  {
    LowerOfLower("nan");
  }

  /** The generic cleaner leaves "nan" as it is. */
  lemma NanClean()
    ensures CleanGeneric("nan") == "nan"
  {
    ReplaceAllAbsent("nan", "R$", "");
    ReplaceAllAbsent("nan", ".", "");
    ReplaceAllAbsent("nan", ",", ".");
    assert Trimmed("nan");
    GenericStages("nan", "nan");
  }

  // ---------------------------------------------------------------------------
  // `carregar_dados_mes`

  /** What a file holds, as the reader would decode it; `Unreadable` is content the reader raises on. */
  datatype DiskFile =
    | CsvText(header: seq<string>, data: seq<seq<Cell>>)
    | JsonText(objects: seq<seq<(string, string)>>)
    | Unreadable

  /** The files that exist, by path. */
  type Disk = map<string, DiskFile>

  /** The value the last entry of key `k` gives it, if any entry does. */
  function LastValue(pairs: seq<(string, string)>, k: string): Option<string>
    decreases |pairs|
  {
    if |pairs| == 0 then None
    else if pairs[|pairs| - 1].0 == k then Some(pairs[|pairs| - 1].1)
    else LastValue(pairs[..|pairs| - 1], k)
  }

  /** `json.load` of one object: a repeated key keeps its first place and takes its last value. */
  function DictOf(pairs: seq<(string, string)>): (r: Record)
    ensures WfRecord(r)
    ensures forall k :: Lookup(r, k) == LastValue(pairs, k)
    decreases |pairs|
  {
    if |pairs| == 0 then []
    else
      var n := |pairs| - 1;
      Put(DictOf(pairs[..n]), pairs[n].0, pairs[n].1)
  }

  /** `ler_wab_json` on the file's objects. */
  function WabJsonTable(objects: seq<seq<(string, string)>>): (t: Table)
    ensures |t.rows| == |objects|
  {
    var records := seq(|objects|, j requires 0 <= j < |objects| => DictOf(objects[j]));
    ReadWabJson(records)
  }

  /** `ler_csv` of an existing file: its table, or `pd.DataFrame()` when reading raises. */
  function CsvSource(file: DiskFile, mapping: Record): Table {
    match file
    case CsvText(header, data) => ReadCsv(header, data, mapping)
    case _ => EmptyTable
  }

  /** `ler_wab_json` of an existing file: its table, or `pd.DataFrame()` when reading raises. */
  function JsonSource(file: DiskFile): Table {
    match file
    case JsonText(objects) => WabJsonTable(objects)
    case _ => EmptyTable
  }

  /** The file name of each source for a month. */
  function FileName(key: SourceKey, mesAno: string): string {
    match key
    case FaturamentoC6 => "faturamento_C6_" + mesAno + ".csv"
    case FaturamentoGds => "faturamento_GDS_" + mesAno + ".csv"
    case FaturamentoWab => "faturamento_WAB_" + mesAno + ".json"
    case PagamentoC6 => "pagamento_C6_" + mesAno + ".csv"
    case PagamentoGds => "pagamento_GDS_" + mesAno + ".csv"
  }

  /** Where a month's file of a source lives: the month's folder under the base path. */
  function SourcePath(base: string, mesAno: string, key: SourceKey): string {
    Join(Join(base, MonthFolder(mesAno)), FileName(key, mesAno))
  }

  /** How each source is read: the WAB export from JSON, the others from CSV with their mapping. */
  function ReadSource(key: SourceKey, file: DiskFile): Table {
    match key
    case FaturamentoWab => JsonSource(file)
    case FaturamentoC6 => CsvSource(file, FaturamentoC6Cols)
    case FaturamentoGds => CsvSource(file, FaturamentoGdsCols)
    case PagamentoC6 => CsvSource(file, PagamentoC6Cols)
    case PagamentoGds => CsvSource(file, PagamentoGdsCols)
  }

  const AllKeys: set<SourceKey> := {FaturamentoC6, FaturamentoGds, FaturamentoWab, PagamentoC6, PagamentoGds}

  /**
    The dictionary of every source, each read from the file at its path, or
    the empty table when no file is there.
   */
  function LoadWith(disk: Disk, path: SourceKey -> string, read: (SourceKey, DiskFile) -> Table): (dados: Data)
    ensures forall key: SourceKey :: key in dados
    ensures forall key :: path(key) !in disk ==> dados[key] == EmptyTable
    ensures forall key :: path(key) in disk ==> dados[key] == read(key, disk[path(key)])
  {
    AllKeysComplete();
    map key: SourceKey | key in AllKeys :: if path(key) in disk then read(key, disk[path(key)]) else EmptyTable
  }

  lemma AllKeysComplete()
    ensures forall key: SourceKey :: key in AllKeys
  {
    forall key: SourceKey
      ensures key in AllKeys
    {
      match key
      case FaturamentoC6 =>
      case FaturamentoGds =>
      case FaturamentoWab =>
      case PagamentoC6 =>
      case PagamentoGds =>
    }
  }

  /** `carregar_dados_mes`: always exactly the five sources. */
  function LoadMonth(disk: Disk, base: string, mesAno: string): (dados: Data)
    ensures forall key: SourceKey :: key in dados
  {
    LoadWith(disk, key => SourcePath(base, mesAno, key), ReadSource)
  }

  /**
    A source whose file does not exist in the month's folder is the empty
    table; an existing one is what its reader makes of the file.
   */
  lemma LoadMonthSource(disk: Disk, base: string, mesAno: string, key: SourceKey)
    ensures SourcePath(base, mesAno, key) !in disk ==> LoadMonth(disk, base, mesAno)[key] == EmptyTable
    ensures SourcePath(base, mesAno, key) in disk ==>
      LoadMonth(disk, base, mesAno)[key] == ReadSource(key, disk[SourcePath(base, mesAno, key)])
  {
  }

  /**
    The file each source reads is the source's name for the month, inside
    the month's folder: for a relative name and a base path not ending in
    '/', the path is base, folder and file name joined by '/'.
   */
  lemma SourcePathShape(base: string, mesAno: string, key: SourceKey)
    requires base != [] && base[|base| - 1] != '/'
    ensures SourcePath(base, mesAno, key) == base + "/" + MonthFolder(mesAno) + "/" + FileName(key, mesAno)
  {
    var folder := MonthFolder(mesAno);
    MonthFolderNames(mesAno);
    assert folder[0] in folder && folder[|folder| - 1] in folder;
    JoinRelative(base, folder);
    var name := FileName(key, mesAno);
    assert name[0] != '/';
    JoinRelative(base + "/" + folder, name);
  }

  /** Every month folder is a non-empty name without '/'. */
  lemma MonthFolderNames(mesAno: string)
    ensures MonthFolder(mesAno) != [] && '/' !in MonthFolder(mesAno)
  {
    MonthNamesPlain();
    var k := Take(mesAno, 2);
    if Lookup(MonthFolders, k).Some? {
      var j := LookupIndex(MonthFolders, k);
    }
  }

  lemma MonthNamesPlain()
    ensures forall j :: 0 <= j < |MonthFolders| ==> |MonthFolders[j].1| > 0 && '/' !in MonthFolders[j].1
  {
  }

  /** The entry a successful lookup reads. */
  lemma {:induction false} LookupIndex(rec: Record, k: string) returns (j: nat)
    requires Lookup(rec, k).Some?
    ensures j < |rec| && rec[j].1 == Lookup(rec, k).value
    decreases |rec|
  {
    if rec[0].0 == k {
      j := 0;
    } else {
      var i := LookupIndex(rec[1..], k);
      j := i + 1;
    }
  }

  /**
    With none of a month's files on disk, every source is the empty table, so
    every total is 0.0 and all four comparisons agree at 0 %.
   */
  lemma NothingOnDisk(rt: Runtime, base: string, mesAno: string)
    ensures forall key :: LoadMonth(map[], base, mesAno)[key] == EmptyTable
    ensures AnalyseAll(rt, LoadMonth(map[], base, mesAno)).Success?
    ensures forall j :: 0 <= j < |AnalyseAll(rt, LoadMonth(map[], base, mesAno)).value| ==>
      AnalyseAll(rt, LoadMonth(map[], base, mesAno)).value[j].percentual == 0.0
  {
    var dados := LoadMonth(map[], base, mesAno);
    forall key
      ensures dados[key] == EmptyTable
    {
      LoadMonthSource(map[], base, mesAno, key);
    }
    NothingLoaded(rt, dados);
  }
}
