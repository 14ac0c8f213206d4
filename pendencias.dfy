/** The pending-payment count behind the notification bell's badge: payment
    rows are folded into a map from "<month name>_<year>" to "has a receipt",
    and every enumerated period whose key is missing or maps to false counts
    as pending. */
module Pendencias {
  import opened Texto
  import opened Calendario
  import opened Meses

  datatype Option<T> = None | Some(value: T)

  /** A row of the payments table as the bell selects it: the month name as
      stored, the year, and the receipt URL (null when none was uploaded). */
  datatype Pagamento = Pagamento(mes: string, ano: int, comprovanteUrl: Option<string>)

  /** `!!p.comprovante_url`: a receipt counts when the URL is present and not
      the empty string. */
  predicate TemComprovante(p: Pagamento)
  {
    p.comprovanteUrl.Some? && p.comprovanteUrl.value != ""
  }

  /** The template `${nome}_${ano}`: the name, then a '_' that is the last
      '_' of the key, since the year's decimal rendering holds none. */
  function Chave(nome: string, ano: int): (k: string)
    ensures |k| > |nome| && k[..|nome|] == nome && k[|nome|] == '_'
    ensures forall j :: |nome| < j < |k| ==> k[j] != '_'
  {
    var t := IntParaTexto(ano);
    var k := nome + "_" + t;
    assert forall j :: |nome| < j < |k| ==> k[j] == t[j - |nome| - 1];
    k
  }

  /** The key a payment row is stored under: its month name lower-cased, so
      the key holds no upper-case letter. */
  function ChavePagamento(p: Pagamento): (k: string)
    ensures |k| > |p.mes| && k[|p.mes|] == '_'
    ensures SemMaiusculas(k)
  {
    Chave(Minusculas(p.mes), p.ano)
  }

  /** The key a period is looked up under: the name of its month. Like every
      stored key it holds no upper-case letter. */
  function ChavePeriodo(p: MesAno): (k: string)
    requires Valido(p)
    ensures SemMaiusculas(k)
  {
    Chave(NomeMesPorNumero(p.mes), p.ano)
  }

  /** A payment row is for a period when its lower-cased month name is the
      period's month name and its year is the period's year. */
  predicate Casa(pag: Pagamento, per: MesAno)
    requires Valido(per)
  {
    Minusculas(pag.mes) == NomeMesPorNumero(per.mes) && pag.ano == per.ano
  }

  /** The key determines both the name and the year. */
  lemma ChaveInjetiva(n1: string, a1: int, n2: string, a2: int)
    requires Chave(n1, a1) == Chave(n2, a2)
    ensures n1 == n2 && a1 == a2
  {
    var k := Chave(n1, a1);
    assert |n1| == |n2|;
    assert n1 == k[..|n1|] == n2;
    assert IntParaTexto(a1) == k[|n1| + 1..] == IntParaTexto(a2);
    IntParaTextoInjetiva(a1, a2);
  }

  /** A row's key is a period's key exactly when the row is for that period. */
  lemma ChaveCasa(pag: Pagamento, per: MesAno)
    requires Valido(per)
    ensures ChavePagamento(pag) == ChavePeriodo(per) <==> Casa(pag, per)
  {
    if ChavePagamento(pag) == ChavePeriodo(per) {
      ChaveInjetiva(Minusculas(pag.mes), pag.ano, NomeMesPorNumero(per.mes), per.ano);
    }
  }

  /** Distinct valid periods have distinct keys. */
  lemma ChavePeriodoInjetiva(p: MesAno, q: MesAno)
    requires Valido(p) && Valido(q)
    ensures ChavePeriodo(p) == ChavePeriodo(q) <==> p == q
  {
    if ChavePeriodo(p) == ChavePeriodo(q) {
      ChaveInjetiva(NomeMesPorNumero(p.mes), p.ano, NomeMesPorNumero(q.mes), q.ano);
    }
  }

  /** A JavaScript Map after one `set(k, v)` per pair, in order: a later pair
      overwrites an earlier one with the same key. */
  function MapaDe<K>(es: seq<(K, bool)>): (m: map<K, bool>)
    ensures m.Keys == set e | e in es :: e.0
    ensures |m| <= |es|
  {
    if es == [] then map[]
    else
      var ultimo := es[|es| - 1];
      assert es == es[..|es| - 1] + [ultimo];
      MapaDe(es[..|es| - 1])[ultimo.0 := ultimo.1]
  }

  /** One more `set` extends the fold by one pair. */
  lemma MapaDePasso<K>(es: seq<(K, bool)>, i: int)
    requires 0 <= i < |es|
    ensures MapaDe(es[..i + 1]) == MapaDe(es[..i])[es[i].0 := es[i].1]
  {
    assert es[..i + 1][..i] == es[..i];
  }

  /** The last pair with a given key decides that key's value. */
  lemma {:induction false} UltimaEntradaPrevalece<K>(es: seq<(K, bool)>, i: int)
    requires 0 <= i < |es|
    requires forall j :: i < j < |es| ==> es[j].0 != es[i].0
    ensures es[i].0 in MapaDe(es) && MapaDe(es)[es[i].0] == es[i].1
  {
    var n := |es|;
    if i < n - 1 {
      var prefixo := es[..n - 1];
      assert forall j :: i < j < n - 1 ==> prefixo[j] == es[j];
      UltimaEntradaPrevalece(prefixo, i);
    }
  }

  /** The index of the last pair with a key that some pair has. */
  lemma {:induction false} UltimaOcorrencia<K>(es: seq<(K, bool)>, k: K) returns (i: int)
    requires exists j :: 0 <= j < |es| && es[j].0 == k
    ensures 0 <= i < |es| && es[i].0 == k
    ensures forall j :: i < j < |es| ==> es[j].0 != k
  {
    var n := |es|;
    if es[n - 1].0 == k {
      i := n - 1;
    } else {
      var prefixo := es[..n - 1];
      var j :| 0 <= j < n && es[j].0 == k;
      assert prefixo[j] == es[j];
      i := UltimaOcorrencia(prefixo, k);
    }
  }

  /** A key maps to true exactly when the last pair with that key says true. */
  lemma VerdadeiroSseUltimaEntrada<K>(es: seq<(K, bool)>, k: K)
    ensures (k in MapaDe(es) && MapaDe(es)[k]) <==>
              exists i :: 0 <= i < |es| && es[i].0 == k && es[i].1 && forall j :: i < j < |es| ==> es[j].0 != k
  {
    if k in MapaDe(es) {
      var e :| e in es && e.0 == k;
      var i := UltimaOcorrencia(es, k);
      UltimaEntradaPrevalece(es, i);
    }
    if exists i :: 0 <= i < |es| && es[i].0 == k && es[i].1 && forall j :: i < j < |es| ==> es[j].0 != k {
      var i :| 0 <= i < |es| && es[i].0 == k && es[i].1 && forall j :: i < j < |es| ==> es[j].0 != k;
      UltimaEntradaPrevalece(es, i);
    }
  }

  /** The pair `pagamentosMap.set` receives for a row. */
  function Entrada(p: Pagamento): (string, bool)
  {
    (ChavePagamento(p), TemComprovante(p))
  }

  function Entradas(pags: seq<Pagamento>): seq<(string, bool)>
  {
    seq(|pags|, i requires 0 <= i < |pags| => Entrada(pags[i]))
  }

  /** pagamentosMap once `forEach` has visited every row: every row's key is
      stored, and there is at most one entry per row. */
  function MapaPagamentos(pags: seq<Pagamento>): (m: map<string, bool>)
    ensures forall p :: p in pags ==> ChavePagamento(p) in m
    ensures |m| <= |pags|
  {
    var es := Entradas(pags);
    assert forall p :: p in pags ==> ChavePagamento(p) in MapaDe(es) by {
      forall p | p in pags
        ensures ChavePagamento(p) in MapaDe(es)
      {
        var i :| 0 <= i < |pags| && pags[i] == p;
        assert es[i] in es && es[i].0 == ChavePagamento(p);
      }
    }
    MapaDe(es)
  }

  /** pagamentosMap as the source fills it: one `set` per row, in order. */
  method ConstruirMapaPagamentos(pags: seq<Pagamento>) returns (mapa: map<string, bool>)
    ensures mapa == MapaPagamentos(pags)
  {
    ghost var es := Entradas(pags);
    mapa := map[];
    for i := 0 to |pags|
      invariant mapa == MapaDe(es[..i])
    {
      MapaDePasso(es, i);
      var chave := Chave(Minusculas(pags[i].mes), pags[i].ano);
      assert es[i] == (chave, TemComprovante(pags[i]));
      mapa := mapa[chave := TemComprovante(pags[i])];
    }
    assert es[..|pags|] == es;
  }

  /** A key is in the folded map exactly when some pair carries it. */
  lemma {:induction false} ChavesDeMapaDe<K>(es: seq<(K, bool)>, k: K)
    ensures k in MapaDe(es) <==> exists i :: 0 <= i < |es| && es[i].0 == k
  {
    if k in MapaDe(es) {
      var e :| e in es && e.0 == k;
      var i :| 0 <= i < |es| && es[i] == e;
    }
  }

  /** Every row is stored under its key, and the map holds no other key. */
  lemma ChavesDoMapa(pags: seq<Pagamento>, k: string)
    ensures k in MapaPagamentos(pags) <==> exists i :: 0 <= i < |pags| && ChavePagamento(pags[i]) == k
  {
    var es := Entradas(pags);
    ChavesDeMapaDe(es, k);
    if k in MapaPagamentos(pags) {
      var i :| 0 <= i < |es| && es[i].0 == k;
      assert es[i] == Entrada(pags[i]);
    }
  }

  /** When several rows share a key, the last of them decides its flag. */
  lemma UltimaLinhaPrevalece(pags: seq<Pagamento>, i: int)
    requires 0 <= i < |pags|
    requires forall j :: i < j < |pags| ==> ChavePagamento(pags[j]) != ChavePagamento(pags[i])
    ensures ChavePagamento(pags[i]) in MapaPagamentos(pags)
    ensures MapaPagamentos(pags)[ChavePagamento(pags[i])] == TemComprovante(pags[i])
  {
    UltimaEntradaPrevalece(Entradas(pags), i);
  }

  /** A period is paid when its key maps to true; `!map.get(key)` holds both
      for a missing key (undefined) and for false. */
  predicate Quitado(mapa: map<string, bool>, per: MesAno)
    requires Valido(per)
  {
    ChavePeriodo(per) in mapa && mapa[ChavePeriodo(per)]
  }

  /** A period is paid exactly when the last payment row for it carries a
      receipt. */
  lemma QuitadoSseUltimaLinhaComComprovante(pags: seq<Pagamento>, per: MesAno)
    requires Valido(per)
    ensures Quitado(MapaPagamentos(pags), per) <==>
              exists i :: 0 <= i < |pags| && Casa(pags[i], per) && TemComprovante(pags[i]) &&
                          forall j :: i < j < |pags| ==> !Casa(pags[j], per)
  {
    var k := ChavePeriodo(per);
    var es := Entradas(pags);
    forall j | 0 <= j < |pags|
      ensures es[j].0 == k <==> Casa(pags[j], per)
    {
      ChaveCasa(pags[j], per);
    }
    VerdadeiroSseUltimaEntrada(es, k);
  }

  /** The number of keys of the list that are missing from the map or map to
      false. */
  function NumAusentes<K>(chaves: seq<K>, mapa: map<K, bool>): (n: nat)
    ensures n <= |chaves|
  {
    if chaves == [] then 0
    else
      var ultima := chaves[|chaves| - 1];
      NumAusentes(chaves[..|chaves| - 1], mapa) + (if ultima in mapa && mapa[ultima] then 0 else 1)
  }

  /** One more key adds one to the count exactly when it is missing or
      false. */
  lemma NumAusentesPasso<K>(chaves: seq<K>, mapa: map<K, bool>, i: int)
    requires 0 <= i < |chaves|
    ensures NumAusentes(chaves[..i + 1], mapa) ==
              NumAusentes(chaves[..i], mapa) + (if chaves[i] in mapa && mapa[chaves[i]] then 0 else 1)
  {
    assert chaves[..i + 1][..i] == chaves[..i];
  }

  /** The positions of the list whose key is missing from the map or maps to
      false. */
  function IndicesAusentes<K>(chaves: seq<K>, mapa: map<K, bool>): set<int>
  {
    set i | 0 <= i < |chaves| && !(chaves[i] in mapa && mapa[chaves[i]])
  }

  /** The count is the number of such positions. */
  lemma {:induction false} NumAusentesConta<K>(chaves: seq<K>, mapa: map<K, bool>)
    ensures NumAusentes(chaves, mapa) == |IndicesAusentes(chaves, mapa)|
  {
    if chaves != [] {
      var n := |chaves|;
      var prefixo := chaves[..n - 1];
      NumAusentesConta(prefixo, mapa);
      var antes := IndicesAusentes(prefixo, mapa);
      assert forall i :: 0 <= i < n - 1 ==> prefixo[i] == chaves[i];
      if chaves[n - 1] in mapa && mapa[chaves[n - 1]] {
        assert IndicesAusentes(chaves, mapa) == antes;
      } else {
        assert IndicesAusentes(chaves, mapa) == antes + {n - 1};
      }
    }
  }

  /** With an empty map every key counts. */
  lemma {:induction false} NumAusentesMapaVazio<K>(chaves: seq<K>)
    ensures NumAusentes(chaves, map[]) == |chaves|
  {
    if chaves != [] {
      NumAusentesMapaVazio(chaves[..|chaves| - 1]);
    }
  }

  /** No key counts exactly when every key maps to true. */
  lemma {:induction false} NumAusentesZero<K>(chaves: seq<K>, mapa: map<K, bool>)
    ensures NumAusentes(chaves, mapa) == 0 <==> forall i :: 0 <= i < |chaves| ==> chaves[i] in mapa && mapa[chaves[i]]
  {
    if chaves != [] {
      var n := |chaves|;
      var prefixo := chaves[..n - 1];
      NumAusentesZero(prefixo, mapa);
      assert forall i :: 0 <= i < n - 1 ==> prefixo[i] == chaves[i];
    }
  }

  predicate TodosValidos(lista: seq<MesAno>)
  {
    forall i :: 0 <= i < |lista| ==> Valido(lista[i])
  }

  /** The key of every period of the list, in order: two positions share a
      key exactly when they hold the same period. */
  function ChavesPeriodos(lista: seq<MesAno>): (chaves: seq<string>)
    requires TodosValidos(lista)
    ensures |chaves| == |lista|
    ensures forall i, j :: 0 <= i < |lista| && 0 <= j < |lista| ==> (chaves[i] == chaves[j] <==> lista[i] == lista[j])
  {
    var chaves := seq(|lista|, i requires 0 <= i < |lista| => ChavePeriodo(lista[i]));
    assert forall i, j :: 0 <= i < |lista| && 0 <= j < |lista| ==> (chaves[i] == chaves[j] <==> lista[i] == lista[j]) by {
      forall i, j | 0 <= i < |lista| && 0 <= j < |lista|
        ensures chaves[i] == chaves[j] <==> lista[i] == lista[j]
      {
        ChavePeriodoInjetiva(lista[i], lista[j]);
      }
    }
    chaves
  }

  /** The enumerated periods have pairwise distinct keys, so no two of them
      are looked up under the same key. */
  lemma ChavesPeriodosDistintas(ano: int, mes: MesIndice, anoFim: int, mesFim: MesIndice, i: int, j: int)
    requires 0 <= i < j < |Periodos(ano, mes, anoFim, mesFim)|
    ensures var lista := Periodos(ano, mes, anoFim, mesFim);
            TodosValidos(lista) && ChavesPeriodos(lista)[i] != ChavesPeriodos(lista)[j]
  {
    PeriodosTamanho(ano, mes, anoFim, mesFim);
    PeriodosCrescentes(ano, mes, anoFim, mesFim, i, j);
  }

  /** The number of periods of the list that are not paid: at most the
      number of periods, and all of them when no payment is known. */
  function NumPendentes(lista: seq<MesAno>, mapa: map<string, bool>): (n: nat)
    requires TodosValidos(lista)
    ensures n <= |lista|
    ensures mapa == map[] ==> n == |lista|
  {
    var chaves := ChavesPeriodos(lista);
    NumAusentesMapaVazio(chaves);
    NumAusentes(chaves, mapa)
  }

  /** The pending count is 0 exactly when every period is paid. */
  lemma NumPendentesZero(lista: seq<MesAno>, mapa: map<string, bool>)
    requires TodosValidos(lista)
    ensures NumPendentes(lista, mapa) == 0 <==> forall i :: 0 <= i < |lista| ==> Quitado(mapa, lista[i])
  {
    NumAusentesZero(ChavesPeriodos(lista), mapa);
  }

  /** The pending count is the number of periods of the list that are not
      paid. */
  lemma NumPendentesConta(lista: seq<MesAno>, mapa: map<string, bool>)
    requires TodosValidos(lista)
    ensures NumPendentes(lista, mapa) == |set i | 0 <= i < |lista| && !Quitado(mapa, lista[i])|
  {
    var chaves := ChavesPeriodos(lista);
    NumAusentesConta(chaves, mapa);
    assert IndicesAusentes(chaves, mapa) == set i | 0 <= i < |lista| && !Quitado(mapa, lista[i]);
  }

  /** The `pendentes` loop: counts the periods whose key is missing or false. */
  method ContarPendentes(lista: seq<MesAno>, mapa: map<string, bool>) returns (pendentes: nat)
    requires TodosValidos(lista)
    ensures pendentes == NumPendentes(lista, mapa)
  {
    ghost var chaves := ChavesPeriodos(lista);
    pendentes := 0;
    for i := 0 to |lista|
      invariant pendentes == NumAusentes(chaves[..i], mapa)
    {
      NumAusentesPasso(chaves, mapa, i);
      var nomeMes := NomeMesPorNumero(lista[i].mes);
      var chave := Chave(nomeMes, lista[i].ano);
      assert chaves[i] == chave;
      if !(chave in mapa && mapa[chave]) {
        pendentes := pendentes + 1;
      }
    }
    assert chaves[..|lista|] == chaves;
  }

  /** verificarPendenciasPagamento once the contract start, today's month and
      the payment rows are known: enumerate, build the map, count. It looks
      periods up with the corrected March name. */
  method VerificarPendenciasPagamento(inicioAno: int, inicioMes: MesIndice, hojeAno: int, hojeMes: MesIndice,
                                      pagamentos: seq<Pagamento>)
    returns (pendentes: nat)
    ensures var periodos := Periodos(inicioAno, inicioMes, hojeAno, hojeMes);
            TodosValidos(periodos) && pendentes == NumPendentes(periodos, MapaPagamentos(pagamentos))
    ensures pendentes <= |Periodos(inicioAno, inicioMes, hojeAno, hojeMes)|
    ensures pagamentos == [] ==> pendentes == |Periodos(inicioAno, inicioMes, hojeAno, hojeMes)|
  {
    var lista := GerarMesAnoLista(inicioAno, inicioMes, hojeAno, hojeMes);
    PeriodosTamanho(inicioAno, inicioMes, hojeAno, hojeMes);
    var mapa := ConstruirMapaPagamentos(pagamentos);
    pendentes := ContarPendentes(lista, mapa);
  }

  /** A single receipted row, as the registration form stores it, settles
      its own month of its year and no other month. */
  lemma LinhaUnicaQuitaSeuMes(m: int, n: int, ano: int, url: string)
    requires 1 <= m <= 12 && 1 <= n <= 12 && url != ""
    ensures Quitado(MapaPagamentos([Pagamento(MESES_REGISTRO[m - 1], ano, Some(url))]), MesAno(n, ano)) <==> m == n
  {
    var pags := [Pagamento(MESES_REGISTRO[m - 1], ano, Some(url))];
    RegistroCasaNomeMes(m);
    QuitadoSseUltimaLinhaComComprovante(pags, MesAno(n, ano));
    if Casa(pags[0], MesAno(n, ano)) {
      assert NomeMesPorNumero(m) == NomeMesPorNumero(n);
    }
  }

  /** The count over a list of three keys, key by key. */
  lemma NumAusentesTres<K>(a: K, b: K, c: K, mapa: map<K, bool>)
    ensures NumAusentes([a, b, c], mapa) ==
              (if a in mapa && mapa[a] then 0 else 1) +
              (if b in mapa && mapa[b] then 0 else 1) +
              (if c in mapa && mapa[c] then 0 else 1)
  {
    assert [a, b, c][..2] == [a, b];
    assert [a, b][..1] == [a];
    assert [a][..0] == [];
    assert NumAusentes([a], mapa) == (if a in mapa && mapa[a] then 0 else 1);
    assert NumAusentes([a, b], mapa) == NumAusentes([a], mapa) + (if b in mapa && mapa[b] then 0 else 1);
  }

  /** The pending count of three periods, period by period. */
  lemma NumPendentesTres(p1: MesAno, p2: MesAno, p3: MesAno, mapa: map<string, bool>)
    requires Valido(p1) && Valido(p2) && Valido(p3)
    ensures TodosValidos([p1, p2, p3])
    ensures NumPendentes([p1, p2, p3], mapa) ==
              (if Quitado(mapa, p1) then 0 else 1) +
              (if Quitado(mapa, p2) then 0 else 1) +
              (if Quitado(mapa, p3) then 0 else 1)
  {
    var chaves := ChavesPeriodos([p1, p2, p3]);
    assert chaves == [ChavePeriodo(p1), ChavePeriodo(p2), ChavePeriodo(p3)];
    NumAusentesTres(ChavePeriodo(p1), ChavePeriodo(p2), ChavePeriodo(p3), mapa);
  }

  /** A contract running from January to March of a year, and one receipted
      payment registered for January: February and March are pending. */
  lemma CenarioJaneiroAMarcoPeriodos(ano: int, url: string)
    requires url != ""
    ensures var periodos := [MesAno(1, ano), MesAno(2, ano), MesAno(3, ano)];
            TodosValidos(periodos) &&
            NumPendentes(periodos, MapaPagamentos([Pagamento(MESES_REGISTRO[0], ano, Some(url))])) == 2
  {
    var mapa := MapaPagamentos([Pagamento(MESES_REGISTRO[0], ano, Some(url))]);
    LinhaUnicaQuitaSeuMes(1, 1, ano, url);
    LinhaUnicaQuitaSeuMes(1, 2, ano, url);
    LinhaUnicaQuitaSeuMes(1, 3, ano, url);
    NumPendentesTres(MesAno(1, ano), MesAno(2, ano), MesAno(3, ano), mapa);
  }

  /** Contract from January 2024, today in March 2024, one receipted payment
      registered for January: the enumeration gives January to March 2024,
      and February and March are pending. */
  lemma CenarioJaneiroAMarco()
    ensures TodosValidos(Periodos(2024, 0, 2024, 2)) &&
            NumPendentes(Periodos(2024, 0, 2024, 2),
                         MapaPagamentos([Pagamento("Janeiro", 2024, Some("comprovante.pdf"))])) == 2
  {
    PeriodosJaneiroAMarco();
    CenarioJaneiroAMarcoPeriodos(2024, "comprovante.pdf");
  }

  /** The key the bell, as written, looks a period up under: the corrected key
      for every month but March, whose key holds an upper-case letter. */
  function ChavePeriodoComoEscrito(p: MesAno): (k: string)
    requires Valido(p)
    ensures p.mes != 3 ==> k == ChavePeriodo(p)
    ensures p.mes == 3 ==> !SemMaiusculas(k)
  {
    var nome := NomeMesComoEscrito(p.mes);
    var k := Chave(nome, p.ano);
    assert p.mes == 3 ==> k[3] == nome[3];
    k
  }

  /** As written, no payment row can ever settle a March: a lower-cased name
      never holds the upper-case U+00C3 of the mis-encoded March name. */
  lemma MarcoNuncaQuitadoComoEscrito(pags: seq<Pagamento>, ano: int)
    ensures ChavePeriodoComoEscrito(MesAno(3, ano)) !in MapaPagamentos(pags)
  {
    ChavesDoMapa(pags, ChavePeriodoComoEscrito(MesAno(3, ano)));
  }

  /** The March payment the registration form stores, with a receipt, settles
      March under the corrected name table. */
  lemma MarcoRegistradoQuitado(ano: int, url: string)
    requires url != ""
    ensures Quitado(MapaPagamentos([Pagamento(MESES_REGISTRO[2], ano, Some(url))]), MesAno(3, ano))
  {
    var pags := [Pagamento(MESES_REGISTRO[2], ano, Some(url))];
    RegistroCasaNomeMes(3);
    assert Casa(pags[0], MesAno(3, ano));
    QuitadoSseUltimaLinhaComComprovante(pags, MesAno(3, ano));
  }

  /** A contract that starts this March, today in March, and the receipted
      March row the registration form stores: as written the bell counts one
      pending period, with the corrected name table none. */
  lemma MarcoPendenteSoComoEscrito(ano: int, url: string)
    requires url != ""
    ensures var mapa := MapaPagamentos([Pagamento(MESES_REGISTRO[2], ano, Some(url))]);
            Periodos(ano, 2, ano, 2) == [MesAno(3, ano)] &&
            NumAusentes([ChavePeriodoComoEscrito(MesAno(3, ano))], mapa) == 1 &&
            NumPendentes([MesAno(3, ano)], mapa) == 0
  {
    var pags := [Pagamento(MESES_REGISTRO[2], ano, Some(url))];
    PeriodoUnico(ano, 2);
    MarcoNuncaQuitadoComoEscrito(pags, ano);
    assert [ChavePeriodoComoEscrito(MesAno(3, ano))][..0] == [];
    MarcoRegistradoQuitado(ano, url);
    NumPendentesZero([MesAno(3, ano)], MapaPagamentos(pags));
  }
}
