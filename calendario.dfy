/** The billing periods of a contract: every calendar month from the
    contract's start month to the current month, both included, as the
    records `{ mes, ano }` that gerarMesAnoLista pushes. */
module Calendario {

  /** One billing period: `mes` counts months from 1 (January) to 12. */
  datatype MesAno = MesAno(mes: int, ano: int)

  /** A month as Date.prototype.getMonth returns it: 0 is January. */
  type MesIndice = m: int | 0 <= m < 12

  predicate Valido(p: MesAno)
  {
    1 <= p.mes <= 12
  }

  /** Chronological order of periods: an earlier year, or the same year and
      an earlier month. */
  predicate Antes(p: MesAno, q: MesAno)
  {
    p.ano < q.ano || (p.ano == q.ano && p.mes < q.mes)
  }

  /** The calendar month that follows a period: December rolls over to
      January of the next year. */
  function Seguinte(p: MesAno): MesAno
  {
    if p.mes == 12 then MesAno(1, p.ano + 1) else MesAno(p.mes + 1, p.ano)
  }

  /** Months elapsed from January of year 0 to the period. */
  function Ordinal(p: MesAno): int
  {
    p.ano * 12 + (p.mes - 1)
  }

  /** The period a given number of months after January of year 0. */
  function DoOrdinal(k: int): (p: MesAno)
    ensures Valido(p) && Ordinal(p) == k
  {
    MesAno(k % 12 + 1, k / 12)
  }

  /** Euclidean division by 12 has one answer. */
  lemma DivisaoPor12(k: int, q: int, r: int)
    requires k == q * 12 + r && 0 <= r < 12
    ensures k / 12 == q && k % 12 == r
  {
  }

  /** The ordinal identifies a valid period: the two conversions are inverse. */
  lemma DoOrdinalOrdinal(p: MesAno)
    requires Valido(p)
    ensures DoOrdinal(Ordinal(p)) == p
  {
    DivisaoPor12(Ordinal(p), p.ano, p.mes - 1);
  }

  /** On valid periods, chronological order is order of ordinals. */
  lemma AntesSseOrdinalMenor(p: MesAno, q: MesAno)
    requires Valido(p) && Valido(q)
    ensures Antes(p, q) <==> Ordinal(p) < Ordinal(q)
  {
  }

  /** One month after a period, by ordinal, is its rolled-over successor. */
  lemma OrdinalSeguinte(p: MesAno)
    requires Valido(p)
    ensures DoOrdinal(Ordinal(p) + 1) == Seguinte(p)
    ensures Valido(Seguinte(p)) && Antes(p, Seguinte(p))
  {
    if p.mes == 12 {
      DivisaoPor12(Ordinal(p) + 1, p.ano + 1, 0);
    } else {
      DivisaoPor12(Ordinal(p) + 1, p.ano, p.mes);
    }
  }

  /** Reference definition of the enumeration: the periods whose ordinals run
      from that of the start month to that of the end month. */
  function Periodos(ano: int, mes: MesIndice, anoFim: int, mesFim: MesIndice): seq<MesAno>
  {
    var primeiro := ano * 12 + mes;
    var ultimo := anoFim * 12 + mesFim;
    if ultimo < primeiro then []
    else seq(ultimo - primeiro + 1, i requires 0 <= i <= ultimo - primeiro => DoOrdinal(primeiro + i))
  }

  /** The i-th enumerated period is i months after the start month. */
  lemma PeriodosEm(ano: int, mes: MesIndice, anoFim: int, mesFim: MesIndice, i: int)
    requires 0 <= i < |Periodos(ano, mes, anoFim, mesFim)|
    ensures Periodos(ano, mes, anoFim, mesFim)[i] == DoOrdinal(ano * 12 + mes + i)
  {
  }

  /** gerarMesAnoLista: walks from the start month to the end month, pushing
      one record per month and rolling December over to January. */
  method GerarMesAnoLista(inicioAno: int, inicioMes: MesIndice, fimAno: int, fimMes: MesIndice)
    returns (lista: seq<MesAno>)
    ensures lista == Periodos(inicioAno, inicioMes, fimAno, fimMes)
  {
    lista := [];
    var ano := inicioAno;
    var mes: int := inicioMes;
    ghost var primeiro := inicioAno * 12 + inicioMes;
    ghost var ultimo := fimAno * 12 + fimMes;
    while ano < fimAno || (ano == fimAno && mes <= fimMes)
      invariant 0 <= mes < 12
      invariant ano * 12 + mes == primeiro + |lista|
      invariant ultimo < primeiro ==> lista == []
      invariant ultimo >= primeiro ==> |lista| <= ultimo - primeiro + 1
      invariant forall i :: 0 <= i < |lista| ==> lista[i] == DoOrdinal(primeiro + i)
      decreases ultimo - (ano * 12 + mes)
    {
      DoOrdinalOrdinal(MesAno(mes + 1, ano));
      lista := lista + [MesAno(mes + 1, ano)];
      mes := mes + 1;
      if mes > 11 {
        mes := 0;
        ano := ano + 1;
      }
    }
  }

  /** Every period of the enumeration is a valid month, and there are as many
      as the months from start to end, or none when the start is later. */
  lemma PeriodosTamanho(ano: int, mes: MesIndice, anoFim: int, mesFim: MesIndice)
    ensures var n := (anoFim - ano) * 12 + (mesFim - mes) + 1;
            |Periodos(ano, mes, anoFim, mesFim)| == if n < 0 then 0 else n
    ensures forall p :: p in Periodos(ano, mes, anoFim, mesFim) ==> Valido(p)
  {
    var r := Periodos(ano, mes, anoFim, mesFim);
    forall i | 0 <= i < |r| ensures Valido(r[i]) {
      PeriodosEm(ano, mes, anoFim, mesFim, i);
    }
  }

  /** The enumeration is empty exactly when the start month is later than the
      end month. */
  lemma PeriodosVazios(ano: int, mes: MesIndice, anoFim: int, mesFim: MesIndice)
    ensures Periodos(ano, mes, anoFim, mesFim) == [] <==> Antes(MesAno(mesFim + 1, anoFim), MesAno(mes + 1, ano))
  {
    AntesSseOrdinalMenor(MesAno(mesFim + 1, anoFim), MesAno(mes + 1, ano));
  }

  /** Start and end in the same month: the single period of that month. */
  lemma PeriodoUnico(ano: int, mes: MesIndice)
    ensures Periodos(ano, mes, ano, mes) == [MesAno(mes + 1, ano)]
  {
    DoOrdinalOrdinal(MesAno(mes + 1, ano));
  }

  /** The first period is the start month and the last one the end month. */
  lemma PeriodosExtremos(ano: int, mes: MesIndice, anoFim: int, mesFim: MesIndice)
    requires Periodos(ano, mes, anoFim, mesFim) != []
    ensures Periodos(ano, mes, anoFim, mesFim)[0] == MesAno(mes + 1, ano)
    ensures var r := Periodos(ano, mes, anoFim, mesFim); r[|r| - 1] == MesAno(mesFim + 1, anoFim)
  {
    var r := Periodos(ano, mes, anoFim, mesFim);
    PeriodosEm(ano, mes, anoFim, mesFim, 0);
    PeriodosEm(ano, mes, anoFim, mesFim, |r| - 1);
    DoOrdinalOrdinal(MesAno(mes + 1, ano));
    DoOrdinalOrdinal(MesAno(mesFim + 1, anoFim));
  }

  /** Each period after the first is the rolled-over successor of the one
      before it. */
  lemma PeriodosConsecutivos(ano: int, mes: MesIndice, anoFim: int, mesFim: MesIndice, i: int)
    requires 0 <= i < |Periodos(ano, mes, anoFim, mesFim)| - 1
    ensures var r := Periodos(ano, mes, anoFim, mesFim); r[i + 1] == Seguinte(r[i])
  {
    var r := Periodos(ano, mes, anoFim, mesFim);
    PeriodosEm(ano, mes, anoFim, mesFim, i);
    PeriodosEm(ano, mes, anoFim, mesFim, i + 1);
    OrdinalSeguinte(r[i]);
  }

  /** The periods are strictly ascending, hence pairwise distinct. */
  lemma PeriodosCrescentes(ano: int, mes: MesIndice, anoFim: int, mesFim: MesIndice, i: int, j: int)
    requires 0 <= i < j < |Periodos(ano, mes, anoFim, mesFim)|
    ensures var r := Periodos(ano, mes, anoFim, mesFim); Antes(r[i], r[j])
  {
    var r := Periodos(ano, mes, anoFim, mesFim);
    PeriodosEm(ano, mes, anoFim, mesFim, i);
    PeriodosEm(ano, mes, anoFim, mesFim, j);
    AntesSseOrdinalMenor(r[i], r[j]);
  }

  /** No month is skipped: a valid period is enumerated exactly when it lies
      between the start month and the end month. */
  lemma PeriodosCompletos(ano: int, mes: MesIndice, anoFim: int, mesFim: MesIndice, p: MesAno)
    requires Valido(p)
    ensures p in Periodos(ano, mes, anoFim, mesFim) <==>
              !Antes(p, MesAno(mes + 1, ano)) && !Antes(MesAno(mesFim + 1, anoFim), p)
  {
    var r := Periodos(ano, mes, anoFim, mesFim);
    var primeiro := ano * 12 + mes;
    AntesSseOrdinalMenor(p, MesAno(mes + 1, ano));
    AntesSseOrdinalMenor(MesAno(mesFim + 1, anoFim), p);
    if p in r {
      var i :| 0 <= i < |r| && r[i] == p;
      PeriodosEm(ano, mes, anoFim, mesFim, i);
    }
    if !Antes(p, MesAno(mes + 1, ano)) && !Antes(MesAno(mesFim + 1, anoFim), p) {
      DoOrdinalOrdinal(p);
      PeriodosEm(ano, mes, anoFim, mesFim, Ordinal(p) - primeiro);
      assert r[Ordinal(p) - primeiro] == p;
    }
  }

  /** From January 2024 to March 2024: three periods, in order. */
  lemma PeriodosJaneiroAMarco()
    ensures Periodos(2024, 0, 2024, 2) == [MesAno(1, 2024), MesAno(2, 2024), MesAno(3, 2024)]
  {
    PeriodosTamanho(2024, 0, 2024, 2);
    PeriodosExtremos(2024, 0, 2024, 2);
    PeriodosConsecutivos(2024, 0, 2024, 2, 0);
  }

  /** From November 2023 to February 2024: the year rolls over after
      December. */
  lemma PeriodosNovembroAFevereiro()
    ensures Periodos(2023, 10, 2024, 1) == [MesAno(11, 2023), MesAno(12, 2023), MesAno(1, 2024), MesAno(2, 2024)]
  {
    PeriodosTamanho(2023, 10, 2024, 1);
    PeriodosExtremos(2023, 10, 2024, 1);
    PeriodosConsecutivos(2023, 10, 2024, 1, 0);
    PeriodosConsecutivos(2023, 10, 2024, 1, 1);
    PeriodosConsecutivos(2023, 10, 2024, 1, 2);
  }
}
