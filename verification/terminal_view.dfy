/**
  The terminal view's pure rules: the status band of a comparison, the
  summary counts, the month display, the month/year and source prompts'
  acceptance, and the split of the results by kind.
 */
module TerminalView {
  import opened Base
  import opened Text
  import opened Decimal
  import opened Frame
  import opened WabText
  import opened Analisador
  import opened DataLoader
  import opened Controller

  // ---------------------------------------------------------------------------
  // Status band

  /** The status printed under a comparison. */
  datatype Band = Confere | PequenaDivergencia | GrandeDivergencia

  /** Below 1 % either way the sources agree; below 5 % it is a small divergence; otherwise a large one. */
  function BandOf(p: real): (b: Band)
    ensures b == Confere <==> -1.0 < p < 1.0
    ensures b == PequenaDivergencia <==> (1.0 <= p < 5.0 || -5.0 < p <= -1.0)
    ensures b == GrandeDivergencia <==> (p <= -5.0 || 5.0 <= p)
  {
    if Abs(p) < 1.0 then Confere
    else if Abs(p) < 5.0 then PequenaDivergencia
    else GrandeDivergencia
  }

  /** How serious a band is. */
  function Rank(b: Band): nat {
    match b
    case Confere => 0
    case PequenaDivergencia => 1
    case GrandeDivergencia => 2
  }

  /**
    The band depends only on the size of the difference: swapping the two
    sources keeps it, and a larger difference never gets a milder band.
   */
  lemma BandBySize(p: real, q: real)
    ensures BandOf(-p) == BandOf(p)
    ensures Abs(p) <= Abs(q) ==> Rank(BandOf(p)) <= Rank(BandOf(q))
  {
  }

  /** Swapping the sources of a comparison keeps its band; equal totals always agree. */
  lemma BandOfSwap(t1: real, t2: real)
    ensures BandOf(Percent(t2, t1)) == BandOf(Percent(t1, t2))
    ensures t1 == t2 ==> BandOf(Percent(t1, t2)) == Confere
  {
    PercentAntisymmetric(t1, t2);
    BandBySize(Percent(t1, t2), 0.0);
  }

  // ---------------------------------------------------------------------------
  // General summary

  predicate Diverges(a: Analysis) {
    Abs(a.percentual) >= 1.0
  }

  /** `total_divergencias`: the results whose difference reaches 1 %. */
  function Divergences(rs: seq<Analysis>): (d: nat)
    ensures d <= |rs|
    ensures d == 0 <==> forall i :: 0 <= i < |rs| ==> BandOf(rs[i].percentual) == Confere
    ensures d == |rs| <==> forall i :: 0 <= i < |rs| ==> BandOf(rs[i].percentual) != Confere
  {
    var d := Count(rs, Diverges);
    FilterSplit(rs, Diverges);
    AllOrNone(rs, Diverges);
    d
  }

  /** A filter keeps everything exactly when its complement keeps nothing. */
  lemma AllOrNone<T>(s: seq<T>, keep: T -> bool)
    ensures Count(s, keep) == |s| <==> Count(s, x => !keep(x)) == 0
  {
    FilterSplit(s, keep);
  }

  /** `taxa_conformidade`: the share of results without divergence, in percent; 0 for no results. */
  function ConformityRate(rs: seq<Analysis>): (r: real)
    ensures 0.0 <= r <= 100.0
    ensures r == 100.0 <==> |rs| > 0 && Divergences(rs) == 0
    ensures r == 0.0 <==> Divergences(rs) == |rs|
  {
    var n := |rs|;
    var d := Divergences(rs);
    if n == 0 then 0.0
    else
      RateBounds(n as real, (n - d) as real);
      ((n - d) as real) / (n as real) * 100.0
  }

  lemma RateBounds(n: real, k: real)
    requires 0.0 <= k <= n && n > 0.0
    ensures 0.0 <= k / n * 100.0 <= 100.0
    ensures k / n * 100.0 == 100.0 <==> k == n
    ensures k / n * 100.0 == 0.0 <==> k == 0.0
  {
    assert k / n * n == k;
  }

  /** All four comparisons of a month with nothing loaded agree, so the rate is 100 %. */
  lemma EmptyMonthConforms(rt: Runtime, base: string, mesAno: string)
    ensures AnalyseAll(rt, LoadMonth(map[], base, mesAno)).Success?
    ensures ConformityRate(AnalyseAll(rt, LoadMonth(map[], base, mesAno)).value) == 100.0
  {
    NothingOnDisk(rt, base, mesAno);
    AgreeingConforms(AnalyseAll(rt, LoadMonth(map[], base, mesAno)).value);
  }

  /** Results whose differences are all 0 % are fully conformant, when there are any. */
  lemma AgreeingConforms(rs: seq<Analysis>)
    requires forall i :: 0 <= i < |rs| ==> rs[i].percentual == 0.0
    ensures ConformityRate(rs) == if |rs| == 0 then 0.0 else 100.0
  {
  }

  // ---------------------------------------------------------------------------
  // Month display

  /** `meses`: the two-digit month codes and the names printed for them. */
  const MonthNames: Record := [
    ("01", "Janeiro"), ("02", "Fevereiro"), ("03", "Março"), ("04", "Abril"),
    ("05", "Maio"), ("06", "Junho"), ("07", "Julho"), ("08", "Agosto"),
    ("09", "Setembro"), ("10", "Outubro"), ("11", "Novembro"), ("12", "Dezembro")
  ]

  /** Everything after the first two characters: Python `s[2:]`. */
  function Rest(s: string): string {
    if |s| <= 2 then [] else s[2..]
  }

  /** `_formatar_mes_ano`: the month's name, or its two raw characters, then '/' and the rest. */
  function FormatMonthYear(mesAno: string): string {
    var mes := Take(mesAno, 2);
    var nome := match Lookup(MonthNames, mes) case Some(n) => n case None => mes;
    nome + "/" + Rest(mesAno)
  }

  /**
    Each month code followed by a year displays as the month's name, '/'
    and the year; text that does not start with a month code displays its
    first two characters in place of a name.
   */
  lemma FormatMonthYearExactly(ano: string, mesAno: string)
    ensures forall j :: 0 <= j < |MonthNames| ==>
      FormatMonthYear(MonthNames[j].0 + ano) == MonthNames[j].1 + "/" + ano
    ensures Take(mesAno, 2) !in Keys(MonthNames) ==>
      FormatMonthYear(mesAno) == Take(mesAno, 2) + "/" + Rest(mesAno)
  {
    assert WfRecord(MonthNames);
    forall j | 0 <= j < |MonthNames|
      ensures FormatMonthYear(MonthNames[j].0 + ano) == MonthNames[j].1 + "/" + ano
    {
      var s := MonthNames[j].0 + ano;
      assert Take(s, 2) == MonthNames[j].0;
      assert Rest(s) == ano;
      WabLoader.LookupAt(MonthNames, j);
    }
  }

  // ---------------------------------------------------------------------------
  // Month/year prompt

  /** `solicitar_mes_ano` accepts the stripped entry: six digits whose first two make a month 1-12. */
  predicate AcceptMonthYear(mesAno: string) {
    |mesAno| == 6 && AllDigits(mesAno) && 1 <= DigitsValue(mesAno[..2]) <= 12
  }

  /** The value of two digits. */
  lemma TwoDigitValue(s: string)
    requires |s| == 2 && AllDigits(s)
    ensures DigitsValue(s) == (s[0] as int - '0' as int) * 10 + (s[1] as int - '0' as int)
  {
    var h := s[..1];
    assert AllDigits(h) && h[..0] == [] && h[0] == s[0];
    assert DigitsValue(h) == s[0] as int - '0' as int;
  }

  /** Each month code is two digits worth the month's number, and is the code of the month's folder. */
  lemma CodeValues(j: nat)
    requires j < |MonthNames|
    ensures |MonthNames[j].0| == 2 && AllDigits(MonthNames[j].0)
    ensures DigitsValue(MonthNames[j].0) == j + 1
    ensures MonthFolders[j].0 == MonthNames[j].0
  {
    var c := MonthNames[j].0;
    assert |c| == 2 && AllDigits(c);
    TwoDigitValue(c);
  }

  /** Two digits worth 1 to 12 are that month's code. */
  lemma CodeOfValue(s: string, v: int)
    requires |s| == 2 && AllDigits(s) && 1 <= v <= 12
    requires v == (s[0] as int - '0' as int) * 10 + (s[1] as int - '0' as int)
    ensures MonthNames[v - 1].0 == s
  {
    var a, b := s[0], s[1];
    if v < 10 {
      assert a == '0' && b as int == '0' as int + v;
    } else {
      assert a == '1' && b as int == '0' as int + v - 10;
    }
    assert s == [a, b];
  }

  /**
    Six digits are accepted exactly when they start with a month code: an
    accepted entry displays as that month's name and loads from that
    month's folder, and every month code followed by four digits is
    accepted.
   */
  lemma AcceptedMonth(mesAno: string) returns (j: nat)
    requires |mesAno| == 6 && AllDigits(mesAno)
    ensures AcceptMonthYear(mesAno) ==>
      && j < |MonthNames|
      && Take(mesAno, 2) == MonthNames[j].0 == MonthFolders[j].0
      && FormatMonthYear(mesAno) == MonthNames[j].1 + "/" + mesAno[2..]
      && MonthFolder(mesAno) == MonthFolders[j].1
    ensures forall i :: 0 <= i < |MonthNames| && Take(mesAno, 2) == MonthNames[i].0 ==> AcceptMonthYear(mesAno)
  {
    var code := mesAno[..2];
    assert AllDigits(code) && Take(mesAno, 2) == code;
    TwoDigitValue(code);
    j := 0;
    if AcceptMonthYear(mesAno) {
      j := DigitsValue(code) - 1;
      CodeOfValue(code, j + 1);
      CodeValues(j);
      assert mesAno == MonthNames[j].0 + mesAno[2..];
      FormatMonthYearExactly(mesAno[2..], mesAno);
      MonthFolderExactly(mesAno[2..]);
    }
    forall i | 0 <= i < |MonthNames| && code == MonthNames[i].0
      ensures AcceptMonthYear(mesAno)
    {
      CodeValues(i);
    }
  }

  // ---------------------------------------------------------------------------
  // Source prompt

  /** `fontes`: the sources offered, in menu order. */
  const Menu: seq<SourceKey> := [FaturamentoC6, FaturamentoGds, FaturamentoWab, PagamentoC6, PagamentoGds]

  /** `solicitar_fonte` on a read number: 1-5 picks that menu line; anything else asks again (`None`). */
  function SelectChoice(n: Option<int>): (r: Option<string>)
    ensures r.Some? <==> n.Some? && 1 <= n.value <= |Menu|
    ensures r.Some? ==> r.value == KeyName(Menu[n.value - 1])
  {
    match n
    case None => None
    case Some(k) =>
      var opcao := k - 1;
      if 0 <= opcao < |Menu| then Some(KeyName(Menu[opcao])) else None
  }

  /** `solicitar_fonte` on the typed entry, read with `int()`; an entry `int()` rejects asks again. */
  function SelectSource(entry: string): Option<string> {
    SelectChoice(ParseInt(entry))
  }

  /** The line of the menu that offers a source. */
  function MenuLine(key: SourceKey): (k: nat)
    ensures 1 <= k <= |Menu| && Menu[k - 1] == key
  {
    match key
    case FaturamentoC6 => 1
    case FaturamentoGds => 2
    case FaturamentoWab => 3
    case PagamentoC6 => 4
    case PagamentoGds => 5
  }

  /**
    Typing a source's menu number selects that source, and every selected
    name is one the controller's lookup knows.
   */
  lemma MenuSelects(key: SourceKey, entry: string)
    ensures SelectSource(ShowInt(MenuLine(key))) == Some(KeyName(key))
    ensures SelectSource(entry).Some? ==> KeyOf(SelectSource(entry).value).Some?
  {
    ShowIntParses(MenuLine(key));
    if SelectSource(entry).Some? {
      var n := ParseInt(entry);
      KeyNameRoundTrip(Menu[n.value - 1]);
    }
  }

  // ---------------------------------------------------------------------------
  // Results by kind

  predicate IsInvoice(a: Analysis) {
    a.kind == Invoice
  }

  predicate IsPayment(a: Analysis) {
    a.kind == Payment
  }

  /**
    The invoice comparisons and the payment comparisons, each in the order
    of the results; every result lands in exactly one of the two.
   */
  function SplitByKind(rs: seq<Analysis>): (r: (seq<Analysis>, seq<Analysis>))
    ensures forall a :: a in r.0 <==> a in rs && a.kind == Invoice
    ensures forall a :: a in r.1 <==> a in rs && a.kind == Payment
    ensures Subsequence(r.0, rs) && Subsequence(r.1, rs)
    ensures |r.0| + |r.1| == |rs|
  {
    SplitCount(rs, IsInvoice, IsPayment);
    (Filter(rs, IsInvoice), Filter(rs, IsPayment))
  }

  /** Filters on a predicate and on its opposite share out the whole sequence. */
  lemma {:induction false} SplitCount<T>(s: seq<T>, p: T -> bool, q: T -> bool)
    requires forall x :: q(x) == !p(x)
    ensures |Filter(s, p)| + |Filter(s, q)| == |s|
    decreases |s|
  {
    if |s| > 0 {
      SplitCount(s[1..], p, q);
    }
  }

  /** A filter that keeps a prefix and drops the rest gives that prefix, and its opposite gives the rest. */
  lemma {:induction false} FilterBlocks<T>(s: seq<T>, p: T -> bool, k: nat)
    requires k <= |s|
    requires forall i :: 0 <= i < k ==> p(s[i])
    requires forall i :: k <= i < |s| ==> !p(s[i])
    ensures Filter(s, p) == s[..k]
    decreases |s|
  {
    if |s| > 0 {
      if k > 0 {
        FilterBlocks(s[1..], p, k - 1);
        assert [s[0]] + s[1..][..k - 1] == s[..k];
      } else {
        FilterBlocks(s[1..], p, 0);
      }
    }
  }

  lemma {:induction false} FilterBlocksRest<T>(s: seq<T>, p: T -> bool, k: nat)
    requires k <= |s|
    requires forall i :: 0 <= i < k ==> !p(s[i])
    requires forall i :: k <= i < |s| ==> p(s[i])
    ensures Filter(s, p) == s[k..]
    decreases |s|
  {
    if |s| > 0 {
      if k > 0 {
        FilterBlocksRest(s[1..], p, k - 1);
        assert s[1..][k - 1..] == s[k..];
      } else {
        assert forall i :: 0 <= i < |s| ==> p(s[i]);
        FilterBlocksRest(s[1..], p, 0);
        assert [s[0]] + s[1..] == s;
      }
    }
  }

  /** The four analyses split into the three invoice comparisons, in order, and the payment one. */
  lemma SplitAnalyses(fat: map<Origin, SourceTotal>, pag: map<Origin, SourceTotal>)
    ensures var r := Analyses(fat, pag);
      SplitByKind(r) == (r[..3], r[3..])
  {
    var r := Analyses(fat, pag);
    AnalysesKinds(fat, pag, r);
    SplitThreeOne(r);
  }

  lemma SplitThreeOne(r: seq<Analysis>)
    requires |r| == 4
    requires forall i :: 0 <= i < 3 ==> r[i].kind == Invoice
    requires r[3].kind == Payment
    ensures SplitByKind(r) == (r[..3], r[3..])
  {
    FilterBlocks(r, IsInvoice, 3);
    FilterBlocksRest(r, IsPayment, 3);
  }

  lemma AnalysesKinds(fat: map<Origin, SourceTotal>, pag: map<Origin, SourceTotal>, r: seq<Analysis>)
    requires r == Analyses(fat, pag)
    ensures |r| == 4
    ensures forall i :: 0 <= i < 3 ==> r[i].kind == Invoice
    ensures r[3].kind == Payment
  {
    forall i | 0 <= i < 3
      ensures r[i].kind == Invoice
    {
      assert r[i] == AnalysePair(Invoice, InvoicePairs[i].0, InvoicePairs[i].1, fat);
    }
    assert r[|InvoicePairs| + 0] == AnalysePair(Payment, PaymentPairs[0].0, PaymentPairs[0].1, pag);
  }
}
