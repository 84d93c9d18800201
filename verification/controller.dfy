/**
  The controller's pure rules: what `obter_detalhes_fonte` reports about one
  loaded source and what `obter_resumo_dados` reports about all of them.
  Both take the loaded dictionary as a parameter instead of loading it.
 */
module Controller {
  import opened Base
  import opened Text
  import opened Frame
  import opened Analisador

  // ---------------------------------------------------------------------------
  // Source names

  /** The source a name from the user denotes, if any: `fonte in dados` looks it up by name. */
  function KeyOf(name: string): (r: Option<SourceKey>)
    ensures r.Some? ==> KeyName(r.value) == name
    ensures r.None? ==> forall key :: KeyName(key) != name
  {
    if name == "faturamento_c6" then Some(FaturamentoC6)
    else if name == "faturamento_gds" then Some(FaturamentoGds)
    else if name == "faturamento_wab" then Some(FaturamentoWab)
    else if name == "pagamento_c6" then Some(PagamentoC6)
    else if name == "pagamento_gds" then Some(PagamentoGds)
    else None
  }

  /** Each source's name denotes that source and no other. */
  lemma KeyNameRoundTrip(key: SourceKey)
    ensures KeyOf(KeyName(key)) == Some(key)
  {
    match key
    case FaturamentoC6 =>
    case FaturamentoGds => assert KeyName(key)[12] != "faturamento_c6"[12];
    case FaturamentoWab =>
      assert KeyName(key)[12] != "faturamento_c6"[12];
      assert KeyName(key)[12] != "faturamento_gds"[12];
    case PagamentoC6 =>
      assert KeyName(key)[0] != "faturamento_c6"[0];
      assert |KeyName(key)| != |"faturamento_gds"|;
    case PagamentoGds =>
      assert KeyName(key)[0] != "faturamento_c6"[0];
      assert KeyName(key)[0] != "faturamento_gds"[0];
      assert KeyName(key)[0] != "faturamento_wab"[0];
      assert KeyName(key)[10] != "pagamento_c6"[10];
  }

  // ---------------------------------------------------------------------------
  // Column statistics

  /** pandas gives a column a numeric dtype when every cell is an integer, a float or NaN. */
  predicate Numeric(rows: seq<Row>, col: string) {
    forall i :: 0 <= i < |rows| ==> Get(rows[i], col).Whole? || Get(rows[i], col).Amount? || Get(rows[i], col).Missing?
  }

  /** The numbers of a column in row order; NaN cells are skipped, as pandas' reductions skip them. */
  function Numbers(rows: seq<Row>, col: string): (xs: seq<real>)
    ensures |xs| <= |rows|
    decreases |rows|
  {
    if |rows| == 0 then []
    else
      var c := Get(rows[0], col);
      (if c.Missing? then [] else [CellValue(c)]) + Numbers(rows[1..], col)
  }

  function Sum(xs: seq<real>): real
    decreases |xs|
  {
    if |xs| == 0 then 0.0 else xs[0] + Sum(xs[1..])
  }

  function MinOf(xs: seq<real>): (m: real)
    requires |xs| > 0
    ensures m in xs && forall i :: 0 <= i < |xs| ==> m <= xs[i]
    decreases |xs|
  {
    if |xs| == 1 then xs[0]
    else
      var m := MinOf(xs[1..]);
      assert forall i :: 1 <= i < |xs| ==> xs[i] == xs[1..][i - 1];
      if xs[0] <= m then xs[0] else m
  }

  function MaxOf(xs: seq<real>): (m: real)
    requires |xs| > 0
    ensures m in xs && forall i :: 0 <= i < |xs| ==> xs[i] <= m
    decreases |xs|
  {
    if |xs| == 1 then xs[0]
    else
      var m := MaxOf(xs[1..]);
      assert forall i :: 1 <= i < |xs| ==> xs[i] == xs[1..][i - 1];
      if xs[0] >= m then xs[0] else m
  }

  /**
    The statistics of a numeric column: `sum()` (0.0 over no numbers), and
    `mean()`, `min()` and `max()`, which are NaN (`None`) over no numbers.
   */
  datatype Stats = Stats(total: real, media: Option<real>, minimo: Option<real>, maximo: Option<real>)

  function ColumnStats(rows: seq<Row>, col: string): (s: Stats)
    ensures s.media.Some? <==> |Numbers(rows, col)| > 0
    ensures s.minimo.Some? == s.media.Some? && s.maximo.Some? == s.media.Some?
  {
    var xs := Numbers(rows, col);
    if |xs| == 0 then Stats(ColumnSum(rows, col), None, None, None)
    else Stats(ColumnSum(rows, col), Some(Sum(xs) / (|xs| as real)), Some(MinOf(xs)), Some(MaxOf(xs)))
  }

  /** A column's pandas sum is the sum of its numbers. */
  lemma {:induction false} ColumnSumIsSum(rows: seq<Row>, col: string)
    ensures ColumnSum(rows, col) == Sum(Numbers(rows, col))
    decreases |rows|
  {
    if |rows| > 0 {
      ColumnSumIsSum(rows[1..], col);
      var c := Get(rows[0], col);
      var head := if c.Missing? then [] else [CellValue(c)];
      SumConcat(head, Numbers(rows[1..], col));
    }
  }

  lemma {:induction false} SumConcat(a: seq<real>, b: seq<real>)
    ensures Sum(a + b) == Sum(a) + Sum(b)
    decreases |a|
  {
    if |a| > 0 {
      assert (a + b)[1..] == a[1..] + b;
      SumConcat(a[1..], b);
    } else {
      assert a + b == b;
    }
  }

  /** Every number lies between the minimum and the maximum, and so their sum lies between `n` times each. */
  lemma {:induction false} SumBetween(xs: seq<real>, lo: real, hi: real)
    requires forall i :: 0 <= i < |xs| ==> lo <= xs[i] <= hi
    ensures (|xs| as real) * lo <= Sum(xs) <= (|xs| as real) * hi
    decreases |xs|
  {
    if |xs| > 0 {
      assert forall i :: 0 <= i < |xs| - 1 ==> xs[1..][i] == xs[i + 1];
      SumBetween(xs[1..], lo, hi);
      assert (|xs| as real) * lo == lo + ((|xs| - 1) as real) * lo;
      assert (|xs| as real) * hi == hi + ((|xs| - 1) as real) * hi;
    }
  }

  lemma QuotientBetween(s: real, n: real, lo: real, hi: real)
    requires n > 0.0 && n * lo <= s <= n * hi
    ensures lo <= s / n <= hi
  {
    assert s / n * n == s;
  }

  /**
    In the statistics of any column, the minimum, mean and maximum are in
    that order, and the total is the column's sum.
   */
  lemma StatsOrdered(rows: seq<Row>, col: string)
    ensures ColumnStats(rows, col).total == Sum(Numbers(rows, col))
    ensures ColumnStats(rows, col).media.Some? ==>
      ColumnStats(rows, col).minimo.value <= ColumnStats(rows, col).media.value <= ColumnStats(rows, col).maximo.value
  {
    ColumnSumIsSum(rows, col);
    var xs := Numbers(rows, col);
    if |xs| > 0 {
      MeanBetween(xs);
    }
  }

  /** The mean of numbers within bounds is within the same bounds. */
  lemma MeanWithin(xs: seq<real>, lo: real, hi: real)
    requires |xs| > 0
    requires forall i :: 0 <= i < |xs| ==> lo <= xs[i] <= hi
    ensures lo <= Sum(xs) / (|xs| as real) <= hi
  {
    SumBetween(xs, lo, hi);
    QuotientBetween(Sum(xs), |xs| as real, lo, hi);
  }

  /** The mean of some numbers lies between their minimum and their maximum. */
  lemma MeanBetween(xs: seq<real>)
    requires |xs| > 0
    ensures MinOf(xs) <= Sum(xs) / (|xs| as real) <= MaxOf(xs)
  {
    MeanWithin(xs, MinOf(xs), MaxOf(xs));
  }

  // ---------------------------------------------------------------------------
  // `obter_detalhes_fonte`

  /** The value columns the main total of an invoice source may come from, in order of preference. */
  const InvoiceValueColumns: seq<string> := ["valor_faturado", "valor_venda", "valor"]

  /** The value columns the main total of a payment source may come from, in order of preference. */
  const PaymentValueColumns: seq<string> := ["valor_recebivel", "valor_parcela", "valor"]

  /**
    The main total: 0.0 when the table has none of the candidates; otherwise
    the sum of the numbers in the first candidate it has, when that column is
    numeric, and 0.0 when it is not.
   */
  function PrincipalTotal(t: Table, candidates: seq<string>): (total: real)
    ensures (forall j :: 0 <= j < |candidates| ==> candidates[j] !in t.columns) ==> total == 0.0
    ensures var i := FirstIn(candidates, t.columns);
      i < |candidates| ==>
        total == (if Numeric(t.rows, candidates[i]) then Sum(Numbers(t.rows, candidates[i])) else 0.0)
  {
    var i := FirstIn(candidates, t.columns);
    if i < |candidates| && Numeric(t.rows, candidates[i]) then
      ColumnSumIsSum(t.rows, candidates[i]);
      ColumnSum(t.rows, candidates[i])
    else 0.0
  }

  /** `total_principal` and `tipo_total`, chosen by the words the source's name contains. */
  function Principal(fonte: string, t: Table): (real, string) {
    if Contains(fonte, "faturamento") then (PrincipalTotal(t, InvoiceValueColumns), "Valor Faturado")
    else if Contains(fonte, "pagamento") then (PrincipalTotal(t, PaymentValueColumns), "Valor Recebível")
    else (0.0, "")
  }

  /** The dictionary `obter_detalhes_fonte` returns: only an error, or the full report. */
  datatype Details =
    | Erro(erro: string)
    | Report(
        registros: nat,
        colunas: seq<string>,
        estatisticas: map<string, Stats>,
        totalPrincipal: real,
        tipoTotal: string,
        primeiros: seq<Row>,
        ultimos: seq<Row>)

  /** Whether the dictionary holds the source the name denotes. */
  predicate Found(dados: Data, fonte: string) {
    KeyOf(fonte).Some? && KeyOf(fonte).value in dados
  }

  /**
    `obter_detalhes_fonte`: an unknown source and an empty table each give
    only an error; otherwise the row count, the columns, statistics for each
    numeric column, the main total and the first and last five rows.
   */
  function SourceDetails(dados: Data, fonte: string): (d: Details)
    ensures !Found(dados, fonte) ==> d == Erro("Fonte " + fonte + " não encontrada")
    ensures Found(dados, fonte) && Empty(dados[KeyOf(fonte).value]) ==>
      d == Erro("Nenhum dado encontrado para " + fonte)
    ensures d.Report? <==> Found(dados, fonte) && !Empty(dados[KeyOf(fonte).value])
    ensures d.Report? ==>
      var t := dados[KeyOf(fonte).value];
      && d.registros == |t.rows| && d.colunas == t.columns
      && (forall c :: c in d.estatisticas <==> c in t.columns && Numeric(t.rows, c))
      && (forall c :: c in d.estatisticas ==> d.estatisticas[c] == ColumnStats(t.rows, c))
      && d.primeiros == Take(t.rows, 5) && d.ultimos == TakeLast(t.rows, 5)
  {
    match KeyOf(fonte)
    case None => Erro("Fonte " + fonte + " não encontrada")
    case Some(key) =>
      if key !in dados then Erro("Fonte " + fonte + " não encontrada")
      else
        var t := dados[key];
        if Empty(t) then Erro("Nenhum dado encontrado para " + fonte)
        else
          var stats := map c | c in t.columns && Numeric(t.rows, c) :: ColumnStats(t.rows, c);
          var (total, tipo) := Principal(fonte, t);
          Report(|t.rows|, t.columns, stats, total, tipo, Take(t.rows, 5), TakeLast(t.rows, 5))
  }

  /**
    The main total of each source: the invoice sources take the first of
    'valor_faturado', 'valor_venda', 'valor' under 'Valor Faturado'; the
    payment sources the first of 'valor_recebivel', 'valor_parcela', 'valor'
    under 'Valor Recebível'.
   */
  lemma PrincipalByKey(t: Table, key: SourceKey)
    ensures key in {FaturamentoC6, FaturamentoGds, FaturamentoWab} ==>
      Principal(KeyName(key), t) == (PrincipalTotal(t, InvoiceValueColumns), "Valor Faturado")
    ensures key in {PagamentoC6, PagamentoGds} ==>
      Principal(KeyName(key), t) == (PrincipalTotal(t, PaymentValueColumns), "Valor Recebível")
  {
    var name := KeyName(key);
    if key in {FaturamentoC6, FaturamentoGds, FaturamentoWab} {
      assert StartsWith(name, "faturamento");
    } else {
      assert name[0] == 'p';
      NoF(name);
      assert StartsWith(name, "pagamento");
    }
  }

  /** A name without 'f' does not contain "faturamento". */
  lemma NoF(name: string)
    requires 'f' !in name
    ensures !Contains(name, "faturamento")
  {
    NotContainsFirst(name, "faturamento");
  }

  /** The report of a found, non-empty source has its main total from `Principal`. */
  lemma DetailsPrincipal(dados: Data, key: SourceKey)
    requires key in dados && !Empty(dados[key])
    ensures var d := SourceDetails(dados, KeyName(key));
      d.Report? && (d.totalPrincipal, d.tipoTotal) == Principal(KeyName(key), dados[key])
  {
    KeyNameRoundTrip(key);
  }

  // ---------------------------------------------------------------------------
  // `obter_resumo_dados`

  datatype SummaryEntry = SummaryEntry(registros: nat, colunas: seq<string>, amostra: seq<Row>)

  /** One source's entry: its row count, its columns and its first three rows, the last two only when not empty. */
  function Summarise(t: Table): (e: SummaryEntry)
    ensures e.registros == |t.rows|
    ensures e.colunas == [] <==> Empty(t)
    ensures !Empty(t) ==> e.colunas == t.columns
    ensures |e.amostra| <= 3 && |e.amostra| <= |t.rows|
    ensures forall i :: 0 <= i < |e.amostra| ==> e.amostra[i] == t.rows[i]
    ensures !Empty(t) ==> |e.amostra| == if |t.rows| < 3 then |t.rows| else 3
  {
    if Empty(t) then SummaryEntry(|t.rows|, [], [])
    else SummaryEntry(|t.rows|, t.columns, Take(t.rows, 3))
  }

  /** `obter_resumo_dados`: one entry per loaded source. */
  function DataSummary(dados: Data): (r: map<SourceKey, SummaryEntry>)
    ensures r.Keys == dados.Keys
    ensures forall key :: key in r ==> r[key] == Summarise(dados[key])
  {
    map key | key in dados :: Summarise(dados[key])
  }
}
