/**
  The analyser: per-source normalisation of the loaded tables, the invoice
  and payment totals per source, and the comparison of four fixed pairs of
  sources.
 */
module Analisador {
  import opened Base
  import opened Text
  import opened Money
  import Decimal
  import opened Frame

  /** The four exports the analyser reads, each with its own cleaning rules. */
  datatype Source = C6Sales | C6Receivables | Gds | Wab

  /** Substrings that mark a value column, matched against the lower-cased column name. */
  function Keywords(src: Source): seq<string> {
    match src
    case C6Sales => ["valor", "total", "parcela", "receita", "val_fat", "val_parc"]
    case C6Receivables => ["valor", "total", "parcela", "receita", "recebivel", "desconto"]
    case Gds => ["valor", "total", "liquido", "receita"]
    case Wab => ["valor", "total", "pago"]
  }

  /** The value columns used when no column name mentions a keyword. */
  function Fallback(src: Source): seq<string> {
    match src
    case C6Sales => ["valor_faturado", "valor_parcela", "valor", "total"]
    case C6Receivables => ["valor_venda", "valor_parcela", "valor_recebivel", "descontos"]
    case Gds => ["valor", "valor_liquido"]
    case Wab => ["valor_pago", "valor_total"]
  }

  /** `any(palavra in col.lower() for palavra in keywords)`. */
  predicate Mentions(name: string, keywords: seq<string>)
    decreases |keywords|
  {
    |keywords| > 0 && (Contains(Lower(name), keywords[0]) || Mentions(name, keywords[1..]))
  }

  lemma {:induction false} MentionsIff(name: string, keywords: seq<string>)
    ensures Mentions(name, keywords) <==> exists j :: 0 <= j < |keywords| && Contains(Lower(name), keywords[j])
    decreases |keywords|
  {
    if |keywords| > 0 {
      MentionsIff(name, keywords[1..]);
      if Mentions(name, keywords[1..]) {
        var j :| 0 <= j < |keywords[1..]| && Contains(Lower(name), keywords[1..][j]);
        assert keywords[j + 1] == keywords[1..][j];
      }
      if exists j :: 0 <= j < |keywords| && Contains(Lower(name), keywords[j]) {
        var j :| 0 <= j < |keywords| && Contains(Lower(name), keywords[j]);
        if j > 0 {
          assert keywords[1..][j - 1] == keywords[j];
        }
      }
    }
  }

  /** The columns, in table order, whose name mentions one of the source's keywords. */
  function KeywordColumns(src: Source, columns: seq<string>): seq<string> {
    Filter(columns, (c: string) => Mentions(c, Keywords(src)))
  }

  /** The columns the value cleaner is run over: the keyword columns, or the fallback names when there are none. */
  function ValueColumns(src: Source, columns: seq<string>): seq<string> {
    var k := KeywordColumns(src, columns);
    if |k| > 0 then k else Fallback(src)
  }

  /** The columns converted with `pd.to_datetime`. */
  function DateColumns(src: Source, columns: seq<string>): seq<string> {
    match src
    case C6Sales => Filter(columns, (c: string) => Contains(Lower(c), "data"))
    case C6Receivables => ["data_venda", "data_recebivel"]
    case Gds => ["data_emissao", "data_vencimento", "data_baixa"]
    case Wab => ["data"]
  }

  /** The amount a value cell holds under the source's cleaning rule. */
  function CellAmount(src: Source, rt: Runtime, c: Cell): real {
    var s := Render(rt, c);
    match src
    case C6Sales => BrlAmount(s)
    case Wab => BrlAmount(s)
    case C6Receivables => C6PaymentAmount(s)
    case Gds => GdsAmount(s)
  }

  /** `pd.to_datetime(..., errors='coerce')` on one cell: NaN becomes NaT, a datetime stays. */
  function ToDate(rt: Runtime, c: Cell): (r: Cell)
    ensures r.Stamp?
  {
    match c
    case Missing => Stamp(None)
    case Stamp(_) => c
    case _ => Stamp(rt.parseDate(Render(rt, c)))
  }

  /** `_padronizar_valores_*`: clean the value columns into amounts, then convert the date columns. */
  function Normalise(rt: Runtime, src: Source, t: Table): Table {
    var v := MapColumns(t, ValueColumns(src, t.columns), (c: Cell) => Amount(CellAmount(src, rt, c)));
    MapColumns(v, DateColumns(src, t.columns), (c: Cell) => ToDate(rt, c))
  }

  /** A lower-case name that starts with a keyword mentions it. */
  lemma MentionsAt(name: string, keywords: seq<string>, m: nat)
    requires m < |keywords| && Lower(name) == name && StartsWith(name, keywords[m])
    ensures Mentions(name, keywords)
  {
    MentionsIff(name, keywords);
  }

  /** Every fallback name starts with a keyword of its own source. */
  lemma FallbackMentions(src: Source, j: nat)
    requires j < |Fallback(src)|
    ensures Mentions(Fallback(src)[j], Keywords(src))
  {
    match src
    case C6Sales => FallbackMentionsC6Sales(j);
    case C6Receivables => FallbackMentionsC6Receivables(j);
    case Gds => FallbackMentionsGds(j);
    case Wab => FallbackMentionsWab(j);
  }

  lemma FallbackMentionsC6Sales(j: nat)
    requires j < 4
    ensures Mentions(Fallback(C6Sales)[j], Keywords(C6Sales))
  {
    var f := Fallback(C6Sales)[j];
    if j == 3 {
      assert Lower(f) == f;
      assert StartsWith(f, "total");
      MentionsAt(f, Keywords(C6Sales), 1);
    } else {
      assert Lower(f) == f;
      assert StartsWith(f, "valor");
      MentionsAt(f, Keywords(C6Sales), 0);
    }
  }

  lemma FallbackMentionsC6Receivables(j: nat)
    requires j < 4
    ensures Mentions(Fallback(C6Receivables)[j], Keywords(C6Receivables))
  {
    var f := Fallback(C6Receivables)[j];
    if j == 3 {
      assert Lower(f) == f;
      assert StartsWith(f, "desconto");
      MentionsAt(f, Keywords(C6Receivables), 5);
    } else {
      assert Lower(f) == f;
      assert StartsWith(f, "valor");
      MentionsAt(f, Keywords(C6Receivables), 0);
    }
  }

  lemma FallbackMentionsGds(j: nat)
    requires j < 2
    ensures Mentions(Fallback(Gds)[j], Keywords(Gds))
  {
    var f := Fallback(Gds)[j];
    assert Lower(f) == f;
    assert StartsWith(f, "valor");
    MentionsAt(f, Keywords(Gds), 0);
  }

  lemma FallbackMentionsWab(j: nat)
    requires j < 2
    ensures Mentions(Fallback(Wab)[j], Keywords(Wab))
  {
    var f := Fallback(Wab)[j];
    assert Lower(f) == f;
    assert StartsWith(f, "valor");
    MentionsAt(f, Keywords(Wab), 0);
  }

  /**
    The fallback list never changes anything: it is used only when no column
    mentions a keyword, and each fallback name mentions one, so none of them
    is a column of the table.
   */
  lemma FallbackInert(src: Source, columns: seq<string>)
    requires |KeywordColumns(src, columns)| == 0
    ensures forall f :: f in Fallback(src) ==> f !in columns
  {
    forall f | f in Fallback(src)
      ensures f !in columns
    {
      var j :| 0 <= j < |Fallback(src)| && Fallback(src)[j] == f;
      FallbackMentions(src, j);
    }
  }

  /** A column is cleaned exactly when its lower-cased name mentions a keyword. */
  lemma ValueColumnsPresent(src: Source, columns: seq<string>)
    ensures forall k :: k in columns ==> (k in ValueColumns(src, columns) <==> Mentions(k, Keywords(src)))
  {
    if |KeywordColumns(src, columns)| == 0 {
      FallbackInert(src, columns);
    }
  }

  lemma DateColumnsDistinct(src: Source, columns: seq<string>)
    requires Distinct(columns)
    ensures Distinct(DateColumns(src, columns))
  {
    if src == C6Sales {
      FilterDistinct(columns, (c: string) => Contains(Lower(c), "data"));
    }
  }

  lemma ValueColumnsDistinct(src: Source, columns: seq<string>)
    requires Distinct(columns)
    ensures Distinct(ValueColumns(src, columns))
  {
    FilterDistinct(columns, (c: string) => Mentions(c, Keywords(src)));
  }

  /**
    What normalising does to a table: the same columns and rows; a cell in
    a column that mentions a keyword (and is not a date column) becomes the
    amount its text reads as; a cell in a date column becomes a datetime;
    every other cell is unchanged.
   */
  lemma NormaliseEffect(rt: Runtime, src: Source, t: Table)
    requires Wf(t)
    ensures var r := Normalise(rt, src, t);
      && r.columns == t.columns && |r.rows| == |t.rows|
      && (forall i, k :: 0 <= i < |t.rows| && !Mentions(k, Keywords(src)) && k !in DateColumns(src, t.columns) ==>
            Get(r.rows[i], k) == Get(t.rows[i], k))
      && (forall i, k :: 0 <= i < |t.rows| && k in t.columns && Mentions(k, Keywords(src)) && k !in DateColumns(src, t.columns) ==>
            Get(r.rows[i], k) == Amount(CellAmount(src, rt, Get(t.rows[i], k))))
      && (forall i, k :: 0 <= i < |t.rows| && k in t.columns && k in DateColumns(src, t.columns) ==>
            Get(r.rows[i], k).Stamp?)
  {
    var vcols := ValueColumns(src, t.columns);
    var dcols := DateColumns(src, t.columns);
    var f := (c: Cell) => Amount(CellAmount(src, rt, c));
    var g := (c: Cell) => ToDate(rt, c);
    ValueColumnsPresent(src, t.columns);
    ValueColumnsDistinct(src, t.columns);
    DateColumnsDistinct(src, t.columns);
    TwoPasses(t, vcols, f, dcols, g, MapColumns(t, vcols, f), Normalise(rt, src, t));
  }

  /**
    A value cell that already holds the float 15.5 is written "15.5" by
    `astype(str)`; every cleaner except the GDS one (`FloatCellGds`) drops
    the '.', so the cell is read as 155.
   */
  lemma FloatCellTenfold(rt: Runtime)
    requires rt.showFloat(15.5) == "15.5"
    ensures CellAmount(C6Sales, rt, Amount(15.5)) == 155.0
    ensures CellAmount(Wab, rt, Amount(15.5)) == 155.0
    ensures CellAmount(C6Receivables, rt, Amount(15.5)) == 155.0
  {
    assert "15.5" == "15" + "." + "5";
    assert AllDigits("15") && AllDigits("5");
    Text155();
    PointCellAmounts(rt, 15.5, "15", "5", 155);
  }

  /** A float written as digits, '.' and digits is read as the integer the digits spell without the '.'. */
  lemma PointCellAmounts(rt: Runtime, x: real, a: string, f: string, n: int)
    requires AllDigits(a) && AllDigits(f) && |a| > 0 && a + f == ShowInt(n)
    requires rt.showFloat(x) == a + "." + f
    ensures CellAmount(C6Sales, rt, Amount(x)) == n as real
    ensures CellAmount(Wab, rt, Amount(x)) == n as real
    ensures CellAmount(C6Receivables, rt, Amount(x)) == n as real
  {
    PointTenfold(Render(rt, Amount(x)), a, f, n);
  }

  /** The GDS cleaner keeps '.', so a float written as digits, '.' and digits is read as that decimal. */
  lemma PointCellGds(rt: Runtime, x: real, q: nat, f: string)
    requires AllDigits(f) && rt.showFloat(x) == ShowNat(q) + "." + f
    ensures CellAmount(Gds, rt, Amount(x)) == q as real + Decimal.FractionValue(f)
  {
    GdsPointText(Render(rt, Amount(x)), q, f);
  }

  /** The GDS cleaner reads the float 15.5, written "15.5", as 15.5. */
  lemma FloatCellGds(rt: Runtime)
    requires rt.showFloat(15.5) == "15.5"
    ensures CellAmount(Gds, rt, Amount(15.5)) == 15.5
  {
    assert ShowNat(15) == "15";
    assert "15.5" == ShowNat(15) + "." + "5";
    assert Decimal.FractionValue("5") == 0.5;
    PointCellGds(rt, 15.5, 15, "5");
  }

  /**
    Normalising is not idempotent: a WAB table whose `valor` column already
    holds the amount 15.5 comes out holding 155.
   */
  lemma NormaliseTwiceTenfold(rt: Runtime)
    requires rt.showFloat(15.5) == "15.5"
    ensures var t := Table(["valor"], [map["valor" := Amount(15.5)]]);
      Get(Normalise(rt, Wab, t).rows[0], "valor") == Amount(155.0)
  {
    var t := Table(["valor"], [map["valor" := Amount(15.5)]]);
    assert Wf(t);
    assert Get(t.rows[0], "valor") == Amount(15.5);
    assert Lower("valor") == "valor" && StartsWith("valor", "valor");
    MentionsAt("valor", Keywords(Wab), 0);
    assert "valor" !in DateColumns(Wab, t.columns);
    NormaliseEffect(rt, Wab, t);
    FloatCellTenfold(rt);
  }

  // ---------------------------------------------------------------------------
  // Totals per source

  /** One entry of the totals dictionary: `{'total', 'registros'[, 'detalhes']}`. */
  datatype SourceTotal = SourceTotal(total: real, registros: nat, detalhes: seq<Row>)

  const NoTotal: SourceTotal := SourceTotal(0.0, 0, [])

  /** The five loaded sources, each the key of the data dictionary `KeyName` writes. */
  datatype SourceKey = FaturamentoC6 | FaturamentoGds | FaturamentoWab | PagamentoC6 | PagamentoGds

  function KeyName(key: SourceKey): string {
    match key
    case FaturamentoC6 => "faturamento_c6"
    case FaturamentoGds => "faturamento_gds"
    case FaturamentoWab => "faturamento_wab"
    case PagamentoC6 => "pagamento_c6"
    case PagamentoGds => "pagamento_gds"
  }

  /** The loaded tables by source. */
  type Data = map<SourceKey, Table>

  /** `key in dados and not dados[key].empty`. */
  predicate Loaded(dados: Data, key: SourceKey) {
    key in dados && !Empty(dados[key])
  }

  /** The index of the first candidate the table has, or `|candidates|` when it has none. */
  function FirstIn(candidates: seq<string>, columns: seq<string>): (i: nat)
    ensures i <= |candidates|
    ensures i < |candidates| ==> candidates[i] in columns
    ensures forall j :: 0 <= j < i ==> candidates[j] !in columns
    decreases |candidates|
  {
    if |candidates| == 0 then 0
    else if candidates[0] in columns then 0
    else 1 + FirstIn(candidates[1..], columns)
  }

  /** The three systems whose totals are compared: the keys 'C6', 'GDS' and 'WAB' of the totals dictionaries. */
  datatype Origin = C6 | GDS | WAB

  /** The loaded invoice table of each system and the source profile it is cleaned with. */
  function InvoiceKey(o: Origin): SourceKey {
    match o
    case C6 => FaturamentoC6
    case GDS => FaturamentoGds
    case WAB => FaturamentoWab
  }

  function InvoiceSource(o: Origin): (src: Source)
    ensures src != C6Receivables
  {
    match o
    case C6 => C6Sales
    case GDS => Gds
    case WAB => Wab
  }

  /** The invoice value columns in order of preference. */
  function InvoiceCandidates(src: Source): seq<string> {
    if src == C6Sales then ["valor_faturado", "valor_venda", "valor"] else ["valor", "valor_venda"]
  }

  /** The invoice total of one system: the sum of its first preferred value column, 0.0 without one. */
  function InvoiceTotal(rt: Runtime, o: Origin, dados: Data): SourceTotal {
    var key := InvoiceKey(o);
    if Loaded(dados, key) then
      var src := InvoiceSource(o);
      var t := Normalise(rt, src, dados[key]);
      var cands := InvoiceCandidates(src);
      var i := FirstIn(cands, t.columns);
      SourceTotal(if i < |cands| then ColumnSum(t.rows, cands[i]) else 0.0, |t.rows|, [])
    else NoTotal
  }

  /** `calcular_totais_faturamento`: an entry for every system, loaded or not. */
  function InvoiceTotals(rt: Runtime, dados: Data): (m: map<Origin, SourceTotal>)
    ensures m.Keys == {C6, GDS, WAB}
    ensures forall o :: o in m ==> m[o] == InvoiceTotal(rt, o, dados)
  {
    map o | o in {C6, GDS, WAB} :: InvoiceTotal(rt, o, dados)
  }

  /** A lower-case name starting with 'valor' is a value column of every source. */
  lemma ValorMentions(src: Source, c: string)
    requires Lower(c) == c && StartsWith(c, "valor")
    ensures Mentions(c, Keywords(src))
  {
    assert Keywords(src)[0] == "valor";
    MentionsAt(c, Keywords(src), 0);
  }

  /** The C6 sales invoice candidates do not mention 'data', so they are not date columns. */
  lemma C6CandidateNotDate(c: string)
    requires c in InvoiceCandidates(C6Sales)
    ensures !Contains(Lower(c), "data")
  {
    assert Lower(c) == c;
    if c == "valor_faturado" {
      assert c == "valor_fatura" + "do";
      NotContainsBefore("valor_fatura", "do", "data");
    } else if c == "valor_venda" {
      assert c == "valor_ven" + "da";
      NotContainsBefore("valor_ven", "da", "data");
    } else {
      NotContainsFirst(c, "data");
    }
  }

  /** Each invoice candidate is cleaned as a value column and is not a date column. */
  lemma CandidatesAreValues(src: Source, columns: seq<string>, j: nat)
    requires src != C6Receivables && j < |InvoiceCandidates(src)|
    ensures Mentions(InvoiceCandidates(src)[j], Keywords(src))
    ensures InvoiceCandidates(src)[j] !in DateColumns(src, columns)
  {
    var c := InvoiceCandidates(src)[j];
    assert Lower(c) == c && StartsWith(c, "valor") by {
      assert c[..5] == "valor";
    }
    ValorMentions(src, c);
    if src == C6Sales {
      C6CandidateNotDate(c);
    } else {
      assert c[0] == 'v';
      assert forall d :: d in DateColumns(src, columns) ==> d[0] == 'd';
    }
  }

  /**
    An absent or empty invoice table totals 0.0 over 0 records; a loaded one
    counts its rows and adds up, over the original rows, the amount each
    cell of the first preferred value column reads as (0.0 when the table
    has none of them).
   */
  lemma InvoiceTotalIsSum(rt: Runtime, o: Origin, dados: Data)
    requires InvoiceKey(o) in dados ==> Wf(dados[InvoiceKey(o)])
    ensures !Loaded(dados, InvoiceKey(o)) ==> InvoiceTotal(rt, o, dados) == NoTotal
    ensures Loaded(dados, InvoiceKey(o)) ==>
      var t := dados[InvoiceKey(o)];
      var src := InvoiceSource(o);
      var cands := InvoiceCandidates(src);
      var i := FirstIn(cands, t.columns);
      && InvoiceTotal(rt, o, dados).registros == |t.rows|
      && InvoiceTotal(rt, o, dados).total
         == (if i < |cands| then SumBy(t.rows, cands[i], (c: Cell) => CellAmount(src, rt, c)) else 0.0)
  {
    var key := InvoiceKey(o);
    if Loaded(dados, key) {
      var src := InvoiceSource(o);
      var t := dados[key];
      var cands := InvoiceCandidates(src);
      var i := FirstIn(cands, t.columns);
      if i < |cands| {
        NormalisedSum(rt, src, t, i);
      }
    }
  }

  /** Summing a normalised invoice candidate column adds up the amounts its original cells read as. */
  lemma NormalisedSum(rt: Runtime, src: Source, t: Table, j: nat)
    requires Wf(t) && src != C6Receivables && j < |InvoiceCandidates(src)|
    requires InvoiceCandidates(src)[j] in t.columns
    ensures ColumnSum(Normalise(rt, src, t).rows, InvoiceCandidates(src)[j])
         == SumBy(t.rows, InvoiceCandidates(src)[j], (c: Cell) => CellAmount(src, rt, c))
  {
    NormaliseEffect(rt, src, t);
    CandidatesAreValues(src, t.columns, j);
    MappedSum(t.rows, Normalise(rt, src, t).rows, InvoiceCandidates(src)[j], (c: Cell) => CellAmount(src, rt, c));
  }

  /** A text cell containing `p` (`.str.contains(p, na=False)`: anything but text is False). */
  predicate HasText(c: Cell, p: string) {
    c.Str? && Contains(c.s, p)
  }

  /** Keep the rows whose `col` cell contains `p`, when the table has that column. */
  function KeepContaining(columns: seq<string>, rows: seq<Row>, col: string, p: string): (r: seq<Row>)
    ensures col !in columns ==> r == rows
    ensures col in columns ==> forall x :: x in r <==> x in rows && HasText(Get(x, col), p)
    ensures col in columns ==> |r| == Count(rows, (x: Row) => HasText(Get(x, col), p))
  {
    if col in columns then Filter(rows, (x: Row) => HasText(Get(x, col), p)) else rows
  }

  /** The payment total of a filtered table: a missing value column is the `KeyError` the source raises. */
  function PaymentTotal(columns: seq<string>, rows: seq<Row>, preferred: string): (r: Result<SourceTotal, string>)
    ensures r.Failure? <==> preferred !in columns && "valor" !in columns
    ensures r.Success? ==> r.value.registros == |rows| && r.value.detalhes == Take(rows, 5)
    ensures r.Success? && preferred in columns ==> r.value.total == ColumnSum(rows, preferred)
    ensures r.Success? && preferred !in columns ==> r.value.total == ColumnSum(rows, "valor")
  {
    var col := if preferred in columns then preferred else "valor";
    if col in columns then Success(SourceTotal(ColumnSum(rows, col), |rows|, Take(rows, 5)))
    else Failure("KeyError: 'valor'")
  }

  /** The C6 receivables total: only rows whose status contains 'Recebido'. */
  function C6PaymentTotal(rt: Runtime, t: Table): Result<SourceTotal, string> {
    var n := Normalise(rt, C6Receivables, t);
    var rows := KeepContaining(n.columns, n.rows, "status", "Recebido");
    PaymentTotal(n.columns, rows, "valor_recebivel")
  }

  /** The GDS payment total: only rows whose type contains 'Receita' and whose paid flag contains 'Sim'. */
  function GdsPaymentTotal(rt: Runtime, t: Table): Result<SourceTotal, string> {
    var n := Normalise(rt, Gds, t);
    var receitas := KeepContaining(n.columns, n.rows, "tipo", "Receita");
    var pagas := KeepContaining(n.columns, receitas, "pago", "Sim");
    PaymentTotal(n.columns, pagas, "valor_liquido")
  }

  /**
    The payment dictionary from the two payment computations (`None` for a
    table that is absent or empty): an entry for each computed system and
    none for the others; C6 is computed first, so its failure is the one
    reported when both fail.
   */
  function CombinePayments(c6: Option<Result<SourceTotal, string>>, gds: Option<Result<SourceTotal, string>>)
    : (r: Result<map<Origin, SourceTotal>, string>)
    ensures r.Failure? <==> (c6.Some? && c6.value.Failure?) || (gds.Some? && gds.value.Failure?)
    ensures r.Failure? && c6.Some? && c6.value.Failure? ==> r.error == c6.value.error
    ensures r.Success? ==> r.value.Keys <= {C6, GDS}
    ensures r.Success? ==> (C6 in r.value <==> c6.Some?) && (GDS in r.value <==> gds.Some?)
    ensures r.Success? && C6 in r.value ==> c6 == Some(Success(r.value[C6]))
    ensures r.Success? && GDS in r.value ==> gds == Some(Success(r.value[GDS]))
  {
    if c6.Some? && c6.value.Failure? then Failure(c6.value.error)
    else if gds.Some? && gds.value.Failure? then Failure(gds.value.error)
    else
      var m: map<Origin, SourceTotal> := if c6.Some? then map[C6 := c6.value.value] else map[];
      Success(if gds.Some? then m[GDS := gds.value.value] else m)
  }

  /** `calcular_totais_pagamento`. */
  function PaymentTotals(rt: Runtime, dados: Data): Result<map<Origin, SourceTotal>, string> {
    CombinePayments(
      if Loaded(dados, PagamentoC6) then Some(C6PaymentTotal(rt, dados[PagamentoC6])) else None,
      if Loaded(dados, PagamentoGds) then Some(GdsPaymentTotal(rt, dados[PagamentoGds])) else None)
  }

  /**
    The C6 receivables total counts exactly the rows whose status contains
    'Recebido', and fails exactly when the table has neither
    'valor_recebivel' nor 'valor'.
   */
  lemma C6PaymentCount(rt: Runtime, t: Table)
    ensures C6PaymentTotal(rt, t).Failure? <==> "valor_recebivel" !in t.columns && "valor" !in t.columns
    ensures "status" in t.columns && C6PaymentTotal(rt, t).Success? ==>
      C6PaymentTotal(rt, t).value.registros
        == Count(Normalise(rt, C6Receivables, t).rows, (x: Row) => HasText(Get(x, "status"), "Recebido"))
  {
  }

  /** A GDS receipt row that is revenue ('Receita') and paid ('Sim'). */
  predicate PaidRevenue(x: Row) {
    HasText(Get(x, "tipo"), "Receita") && HasText(Get(x, "pago"), "Sim")
  }

  /**
    The GDS payment total counts exactly the rows that are revenue and paid,
    and fails exactly when the table has neither 'valor_liquido' nor 'valor'.
   */
  lemma GdsPaymentCount(rt: Runtime, t: Table)
    ensures GdsPaymentTotal(rt, t).Failure? <==> "valor_liquido" !in t.columns && "valor" !in t.columns
    ensures "tipo" in t.columns && "pago" in t.columns && GdsPaymentTotal(rt, t).Success? ==>
      GdsPaymentTotal(rt, t).value.registros == Count(Normalise(rt, Gds, t).rows, PaidRevenue)
  {
    var n := Normalise(rt, Gds, t);
    if "tipo" in t.columns && "pago" in t.columns {
      FilterTwice(n.rows, (x: Row) => HasText(Get(x, "tipo"), "Receita"),
        (x: Row) => HasText(Get(x, "pago"), "Sim"), PaidRevenue);
    }
  }

  // ---------------------------------------------------------------------------
  // Comparing pairs

  /** The signed difference as a percentage of the larger total; 0 when neither is positive. */
  function Percent(t1: real, t2: real): real {
    var m := Max(t1, t2);
    if m > 0.0 then (t1 - t2) / m * 100.0 else 0.0
  }

  /** `tipo_analise`: 'faturamento' or 'pagamento'. */
  datatype Kind = Invoice | Payment

  /** `ResultadoAnalise`, without the divergence details, which are always empty. */
  datatype Analysis = Analysis(
    pair: (Origin, Origin),
    kind: Kind,
    total1: real,
    total2: real,
    registros1: nat,
    registros2: nat,
    diferenca: real,
    percentual: real)

  /** `totais.get(fonte, {}).get('total', 0)`. */
  function TotalOf(totais: map<Origin, SourceTotal>, o: Origin): real {
    if o in totais then totais[o].total else 0.0
  }

  /** `totais.get(fonte, {}).get('registros', 0)`. */
  function CountOf(totais: map<Origin, SourceTotal>, o: Origin): nat {
    if o in totais then totais[o].registros else 0
  }

  /**
    `analisar_par_faturamento` / `analisar_par_pagamento`: the same arithmetic
    under two tags. The percentage is the difference measured against the
    larger total: for non-negative totals it lies in [-100, 100], is zero
    exactly when the totals agree, and has the difference's sign.
   */
  function AnalysePair(kind: Kind, f1: Origin, f2: Origin, totais: map<Origin, SourceTotal>): (a: Analysis)
    ensures a.pair == (f1, f2) && a.kind == kind
    ensures a.total1 == TotalOf(totais, f1) && a.total2 == TotalOf(totais, f2)
    ensures a.registros1 == CountOf(totais, f1) && a.registros2 == CountOf(totais, f2)
    ensures a.diferenca == a.total1 - a.total2
    ensures a.percentual == Percent(a.total1, a.total2)
    ensures Max(a.total1, a.total2) > 0.0 ==> a.percentual / 100.0 * Max(a.total1, a.total2) == a.diferenca
    ensures Max(a.total1, a.total2) <= 0.0 ==> a.percentual == 0.0
    ensures a.total1 >= 0.0 && a.total2 >= 0.0 ==>
      && -100.0 <= a.percentual <= 100.0
      && (a.percentual == 0.0 <==> a.diferenca == 0.0)
      && (a.percentual > 0.0 <==> a.diferenca > 0.0)
      && (a.percentual < 0.0 <==> a.diferenca < 0.0)
  {
    var t1 := TotalOf(totais, f1);
    var t2 := TotalOf(totais, f2);
    PercentMeaning(t1, t2);
    Analysis((f1, f2), kind, t1, t2, CountOf(totais, f1), CountOf(totais, f2), t1 - t2, Percent(t1, t2))
  }

  /** The fixed pairs: three invoice comparisons, then one payment comparison. */
  const InvoicePairs: seq<(Origin, Origin)> := [(GDS, C6), (GDS, WAB), (C6, WAB)]
  const PaymentPairs: seq<(Origin, Origin)> := [(GDS, C6)]

  /** The four analyses from the two totals dictionaries: the invoice pairs in order, then the payment pair. */
  function Analyses(fat: map<Origin, SourceTotal>, pag: map<Origin, SourceTotal>): (r: seq<Analysis>)
    ensures |r| == |InvoicePairs| + |PaymentPairs|
    ensures forall j :: 0 <= j < |InvoicePairs| ==>
      r[j] == AnalysePair(Invoice, InvoicePairs[j].0, InvoicePairs[j].1, fat)
    ensures forall j :: 0 <= j < |PaymentPairs| ==>
      r[|InvoicePairs| + j] == AnalysePair(Payment, PaymentPairs[j].0, PaymentPairs[j].1, pag)
  {
    seq(|InvoicePairs|, j requires 0 <= j < |InvoicePairs| => AnalysePair(Invoice, InvoicePairs[j].0, InvoicePairs[j].1, fat))
    + seq(|PaymentPairs|, j requires 0 <= j < |PaymentPairs| => AnalysePair(Payment, PaymentPairs[j].0, PaymentPairs[j].1, pag))
  }

  /** `analisar_todos_pares`: the payment totals can raise, and then there is no result. */
  function AnalyseAll(rt: Runtime, dados: Data): (r: Result<seq<Analysis>, string>)
    ensures r.Success? <==> PaymentTotals(rt, dados).Success?
    ensures r.Success? ==> r.value == Analyses(InvoiceTotals(rt, dados), PaymentTotals(rt, dados).value)
  {
    match PaymentTotals(rt, dados)
    case Failure(e) => Failure(e)
    case Success(pag) => Success(Analyses(InvoiceTotals(rt, dados), pag))
  }

  /** `analisar_discrepancias`: no data gives no results. */
  function AnalyseDiscrepancies(rt: Runtime, dados: Option<Data>): (r: Result<seq<Analysis>, string>)
    ensures dados.None? ==> r == Success([])
    ensures dados.Some? ==> r == AnalyseAll(rt, dados.value)
  {
    match dados
    case None => Success([])
    case Some(d) => AnalyseAll(rt, d)
  }

  /**
    A system missing from a totals dictionary reads as 0.0 over 0 records:
    every invoice comparison sees both totals, and the payment comparison
    puts GDS against C6 whatever was computed.
   */
  lemma AnalysesMissing(fat: map<Origin, SourceTotal>, pag: map<Origin, SourceTotal>)
    requires fat.Keys == {C6, GDS, WAB}
    ensures var r := Analyses(fat, pag);
      && (forall j :: 0 <= j < 3 ==>
            r[j].total1 == fat[InvoicePairs[j].0].total && r[j].total2 == fat[InvoicePairs[j].1].total)
      && r[3].pair == (GDS, C6) && r[3].kind == Payment
      && (GDS !in pag ==> r[3].total1 == 0.0 && r[3].registros1 == 0)
      && (C6 !in pag ==> r[3].total2 == 0.0 && r[3].registros2 == 0)
  {
    var r := Analyses(fat, pag);
    assert r[|InvoicePairs| + 0] == AnalysePair(Payment, GDS, C6, pag);
  }

  /**
    With no source loaded, every invoice total is 0.0 over 0 records, the
    payment dictionary is empty, and all four comparisons agree at 0 %.
   */
  lemma NothingLoaded(rt: Runtime, dados: Data)
    requires forall key :: !Loaded(dados, key)
    ensures InvoiceTotals(rt, dados) == map[C6 := NoTotal, GDS := NoTotal, WAB := NoTotal]
    ensures PaymentTotals(rt, dados) == Success(map[])
    ensures AnalyseAll(rt, dados).Success?
    ensures forall j :: 0 <= j < |AnalyseAll(rt, dados).value| ==>
      var a := AnalyseAll(rt, dados).value[j];
      a.total1 == 0.0 && a.total2 == 0.0 && a.diferenca == 0.0 && a.percentual == 0.0
  {
    var fat := InvoiceTotals(rt, dados);
    assert !Loaded(dados, InvoiceKey(C6)) && !Loaded(dados, InvoiceKey(GDS)) && !Loaded(dados, InvoiceKey(WAB));
    assert fat == map[C6 := NoTotal, GDS := NoTotal, WAB := NoTotal];
    assert !Loaded(dados, PagamentoC6) && !Loaded(dados, PagamentoGds);
    ZeroAnalyses(fat, map[]);
  }

  /** Totals that are all 0.0 give comparisons that all agree at 0 %. */
  lemma ZeroAnalyses(fat: map<Origin, SourceTotal>, pag: map<Origin, SourceTotal>)
    requires forall o :: o in fat ==> fat[o].total == 0.0
    requires forall o :: o in pag ==> pag[o].total == 0.0
    ensures forall j :: 0 <= j < |Analyses(fat, pag)| ==>
      var a := Analyses(fat, pag)[j];
      a.total1 == 0.0 && a.total2 == 0.0 && a.diferenca == 0.0 && a.percentual == 0.0
  {
    var r := Analyses(fat, pag);
    forall j | 0 <= j < |r|
      ensures r[j].total1 == 0.0 && r[j].total2 == 0.0 && r[j].diferenca == 0.0 && r[j].percentual == 0.0
    {
      if j >= |InvoicePairs| {
        assert r[|InvoicePairs| + (j - |InvoicePairs|)] == r[j];
      }
    }
  }

  // ---------------------------------------------------------------------------
  // Properties of the percentage

  lemma PercentAntisymmetric(t1: real, t2: real)
    ensures Percent(t2, t1) == -Percent(t1, t2)
  {
  }

  /** For non-negative totals the percentage lies in [-100, 100]. */
  lemma PercentBounds(t1: real, t2: real)
    requires t1 >= 0.0 && t2 >= 0.0
    ensures -100.0 <= Percent(t1, t2) <= 100.0
  {
    var m := Max(t1, t2);
    if m > 0.0 {
      var d := t1 - t2;
      assert -m <= d <= m;
      DivBounds(d, m);
    }
  }

  lemma DivBounds(d: real, m: real)
    requires m > 0.0 && -m <= d <= m
    ensures -100.0 <= d / m * 100.0 <= 100.0
  {
    assert d / m <= 1.0 && d / m >= -1.0;
  }

  /** For non-negative totals the percentage is 0 exactly when the totals agree, and has the sign of `t1 - t2`. */
  lemma PercentSign(t1: real, t2: real)
    requires t1 >= 0.0 && t2 >= 0.0
    ensures Percent(t1, t2) == 0.0 <==> t1 == t2
    ensures Percent(t1, t2) > 0.0 <==> t1 > t2
    ensures Percent(t1, t2) < 0.0 <==> t1 < t2
  {
    var m := Max(t1, t2);
    if m > 0.0 {
      SignOfQuotient(t1 - t2, m);
    }
  }

  lemma SignOfQuotient(d: real, m: real)
    requires m > 0.0
    ensures d / m * 100.0 > 0.0 <==> d > 0.0
    ensures d / m * 100.0 < 0.0 <==> d < 0.0
    ensures d / m * 100.0 == 0.0 <==> d == 0.0
  {
    assert d == (d / m) * m;
  }

  /** What the percentage means, for any pair of totals. */
  lemma PercentMeaning(t1: real, t2: real)
    ensures Max(t1, t2) > 0.0 ==> Percent(t1, t2) / 100.0 * Max(t1, t2) == t1 - t2
    ensures Max(t1, t2) <= 0.0 ==> Percent(t1, t2) == 0.0
    ensures t1 >= 0.0 && t2 >= 0.0 ==>
      && -100.0 <= Percent(t1, t2) <= 100.0
      && (Percent(t1, t2) == 0.0 <==> t1 - t2 == 0.0)
      && (Percent(t1, t2) > 0.0 <==> t1 - t2 > 0.0)
      && (Percent(t1, t2) < 0.0 <==> t1 - t2 < 0.0)
  {
    var m := Max(t1, t2);
    if m > 0.0 {
      QuotientScaled(t1 - t2, m);
    }
    if t1 >= 0.0 && t2 >= 0.0 {
      PercentBounds(t1, t2);
      PercentSign(t1, t2);
    }
  }

  lemma QuotientScaled(d: real, m: real)
    requires m > 0.0
    ensures d / m * 100.0 / 100.0 * m == d
  {
    assert d / m * 100.0 / 100.0 == d / m;
  }

  /** A source with nothing against a source with something is a full 100 % apart. */
  lemma PercentOneSided(x: real)
    requires x > 0.0
    ensures Percent(0.0, x) == -100.0
    ensures Percent(x, 0.0) == 100.0
  {
    assert (0.0 - x) / x == -1.0;
    assert (x - 0.0) / x == 1.0;
  }

  // ---------------------------------------------------------------------------
  // `_comparar_fontes`: the older comparison (its result record cannot be built)

  datatype Comparison = Comparison(diferenca: real, percentual: real)

  /** The absolute difference, as a percentage of `t1` when positive, else of `t2` when positive, else 0. */
  function CompareSources(t1: real, t2: real): Comparison {
    var d := Abs(t1 - t2);
    Comparison(d, if t1 > 0.0 then d / t1 * 100.0 else if t2 > 0.0 then d / t2 * 100.0 else 0.0)
  }

  /**
    The older comparison never goes negative, and it agrees with the pair
    percentage up to sign whenever its divisor is the larger total.
   */
  lemma CompareSourcesMatchesPercent(t1: real, t2: real)
    ensures CompareSources(t1, t2).diferenca >= 0.0
    ensures CompareSources(t1, t2).percentual >= 0.0
    ensures t1 >= t2 ==> CompareSources(t1, t2).percentual == Percent(t1, t2)
    ensures t1 <= 0.0 < t2 ==> CompareSources(t1, t2).percentual == -Percent(t1, t2)
  {
    var d := Abs(t1 - t2);
    if t1 > 0.0 {
      NonNegQuotient(d, t1);
    } else if t2 > 0.0 {
      NonNegQuotient(d, t2);
      assert (t1 - t2) / t2 * 100.0 == -(d / t2 * 100.0);
    }
  }

  lemma NonNegQuotient(d: real, m: real)
    requires m > 0.0 && d >= 0.0
    ensures d / m * 100.0 >= 0.0
  {
  }

  /** The older comparison is 0 exactly for equal totals, once either total is positive. */
  lemma CompareSourcesZero(t1: real, t2: real)
    requires t1 > 0.0 || t2 > 0.0
    ensures CompareSources(t1, t2).percentual == 0.0 <==> t1 == t2
  {
    var d := Abs(t1 - t2);
    if t1 > 0.0 {
      SignOfQuotient(d, t1);
    } else {
      SignOfQuotient(d, t2);
    }
  }
}
