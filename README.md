# Pending-payment badge of the notification bell

This project models the reconciliation behind the notification bell of the
student-transport app (`components/NotificacaoBell.tsx`). It has three steps:

- **Billing periods.** `gerarMesAnoLista` lists every calendar month from the
  contract's start month to today's month, both included. Each month is a
  record `{ mes: 1..12, ano }`, and December rolls over to January of the
  next year.
- **Month names.** `nomeMesPorNumero` turns a month number 1..12 into a
  lower-case Portuguese month name.
- **Pending count.** The payment rows (`mes` name, `ano`, `comprovante_url`)
  are folded into a `Map` keyed by `` `${mes.toLowerCase()}_${ano}` ``. The
  value is "has a receipt URL", and a later row overwrites an earlier one.
  Every period whose key is missing or maps to `false` counts as pending.
  The total is the number on the badge.

There are four modules:

- `Texto` models `toLowerCase` and the decimal rendering of a year in a
  template literal.
- `Calendario` holds the periods, the enumeration loop and a closed-form
  reference definition of the enumeration.
- `Meses` holds the month-name tables.
- `Pendencias` holds the payment map, the count loop and the whole pipeline.

The key is modelled as the real string `name + "_" + decimal(year)`. It is
proved injective, so looking up a period's key finds exactly the rows whose
lower-cased month name and year match that period.

The loops of the source become methods with loop invariants. Each method is
proved equal to a specification function: `GerarMesAnoLista`,
`ConstruirMapaPagamentos`, `ContarPendentes` and `VerificarPendenciasPagamento`.
The properties are proved as lemmas about those functions.

The code departs from its evident intent in one place, at
`components/NotificacaoBell.tsx:33`; see "## Findings". The model logs that
line as written and then uses the corrected name table.

## Model

| member | source | states |
|---|---|---|
| `Texto.MinusculaChar` | components/NotificacaoBell.tsx:73 | lower-casing one character leaves no upper-case letter and keeps every other character |
| `Texto.Minusculas` | components/NotificacaoBell.tsx:73 | `toLowerCase` keeps the length and lower-cases character by character |
| `Texto.MinusculasPreserva` | components/NotificacaoBell.tsx:73 | a string with no upper-case letter is unchanged by `toLowerCase` |
| `Texto.MinusculasCapitalizado` | components/NotificacaoBell.tsx:73 | a capitalised word lower-cases to the same word starting with a lower-case letter |
| `Texto.NatParaTexto` | components/NotificacaoBell.tsx:73 | a non-negative year prints as at least one decimal digit, more than one exactly from 10 up |
| `Texto.IntParaTexto` | components/NotificacaoBell.tsx:73 | `${ano}` prints digits, with a leading '-' exactly for negative years |
| `Texto.ValorDecimalNatParaTexto` | components/NotificacaoBell.tsx:73 | reading the printed digits back gives the number: printing is invertible |
| `Texto.IntParaTextoInjetiva` | components/NotificacaoBell.tsx:80 | distinct years print as distinct strings |
| `Calendario.DoOrdinal` | components/NotificacaoBell.tsx:21 | every month ordinal names a valid period (month 1..12) whose ordinal it is |
| `Calendario.DoOrdinalOrdinal` | components/NotificacaoBell.tsx:21 | the ordinal identifies a valid period (round trip) |
| `Calendario.OrdinalSeguinte` | components/NotificacaoBell.tsx:22-26 | one month later is the next month of the same year, or January of the next year after December, and is chronologically later |
| `Calendario.GerarMesAnoLista` | components/NotificacaoBell.tsx:12-29 | the loop returns exactly the reference enumeration from the start month to the end month |
| `Calendario.PeriodosTamanho` | components/NotificacaoBell.tsx:20-27 | every entry has `mes` in 1..12, and the length is `(anoFim-ano)*12 + (mesFim-mes) + 1`, or 0 when that is negative |
| `Calendario.PeriodosVazios` | components/NotificacaoBell.tsx:20 | the list is empty if and only if the start month is after the end month |
| `Calendario.PeriodoUnico` | components/NotificacaoBell.tsx:20-21 | the same start and end month give exactly `[{mes: month+1, ano: year}]` |
| `Calendario.PeriodosExtremos` | components/NotificacaoBell.tsx:14-21 | the first entry is the start month and the last entry is the end month |
| `Calendario.PeriodosConsecutivos` | components/NotificacaoBell.tsx:22-26 | each entry is the rolled-over successor of the entry before it |
| `Calendario.PeriodosCrescentes` | components/NotificacaoBell.tsx:20-27 | entries are strictly ascending in (ano, mes), so no month repeats |
| `Calendario.PeriodosCompletos` | components/NotificacaoBell.tsx:12-29 | a valid month is listed if and only if it lies between the start month and the end month |
| `Calendario.PeriodosJaneiroAMarco` | components/NotificacaoBell.tsx:12-29 | January to March 2024 gives the three months in order |
| `Calendario.PeriodosNovembroAFevereiro` | components/NotificacaoBell.tsx:12-29 | November 2023 to February 2024 rolls over after December |
| `Meses.NomeMesPorNumero` | components/NotificacaoBell.tsx:31-37 | `nomeMesPorNumero` (with March spelt correctly) gives a name that the inverse lookup reads back to its month, so distinct months get distinct names, and the name holds no upper-case letter |
| `Meses.NomeMesMinusculo` | components/NotificacaoBell.tsx:32-35 | every month name is its own lower case, so a lower-cased stored name can equal it |
| `Meses.RegistroCasaNomeMes` | components/NotificacaoBell.tsx:32-35 | every name the registration form (`RegistrarPagamento.tsx`, lines 25-28) stores lower-cases to the table's name for the same month |
| `Meses.NomeMesComoEscrito` | components/NotificacaoBell.tsx:31-37 | the table as written agrees with the intended names except March, whose name contains an upper-case letter |
| `Pendencias.Chave` | components/NotificacaoBell.tsx:73 | the template `${nome}_${ano}` starts with the name, and the '_' after it is the last '_' of the key |
| `Pendencias.ChavePagamento` | components/NotificacaoBell.tsx:73 | a row's key has the separator right after the name, and holds no upper-case letter because the name is lower-cased |
| `Pendencias.ChavePeriodo` | components/NotificacaoBell.tsx:79-80 | a period's key holds no upper-case letter either, so it can equal a row's key |
| `Pendencias.ChavePeriodoInjetiva` | components/NotificacaoBell.tsx:79-80 | two valid periods have the same key if and only if they are the same period |
| `Pendencias.ChaveInjetiva` | components/NotificacaoBell.tsx:73 | a key determines both the month name and the year |
| `Pendencias.ChaveCasa` | components/NotificacaoBell.tsx:73-80 | a row's key equals a period's key if and only if the row's lower-cased name and year are that period's |
| `Pendencias.MapaDe` | components/NotificacaoBell.tsx:71-75 | the map's keys are exactly the keys that were set |
| `Pendencias.UltimaEntradaPrevalece` | components/NotificacaoBell.tsx:74 | `Map.set` overwrites: the last pair with a key decides its value |
| `Pendencias.UltimaOcorrencia` | components/NotificacaoBell.tsx:72-75 | a key that some pair has has a last pair |
| `Pendencias.VerdadeiroSseUltimaEntrada` | components/NotificacaoBell.tsx:71-81 | a key maps to true if and only if its last pair says true |
| `Pendencias.MapaPagamentos` | components/NotificacaoBell.tsx:71-75 | after the `forEach`, every row's key is in the map, and the map has at most one entry per row |
| `Pendencias.ConstruirMapaPagamentos` | components/NotificacaoBell.tsx:71-75 | the `forEach` loop builds exactly the fold of the rows' pairs |
| `Pendencias.ChavesDoMapa` | components/NotificacaoBell.tsx:71-75 | a key is in the map if and only if some row has it |
| `Pendencias.UltimaLinhaPrevalece` | components/NotificacaoBell.tsx:71-75 | when rows share a key, the last row in input order decides its receipt flag |
| `Pendencias.QuitadoSseUltimaLinhaComComprovante` | components/NotificacaoBell.tsx:71-83 | a period is settled if and only if the last row for its month name and year has a non-empty receipt URL |
| `Pendencias.NumAusentes` | components/NotificacaoBell.tsx:77-84 | the count of keys missing or false is at most the number of keys |
| `Pendencias.NumAusentesConta` | components/NotificacaoBell.tsx:77-84 | that count is the number of positions whose key is missing or false |
| `Pendencias.NumAusentesMapaVazio` | components/NotificacaoBell.tsx:77-84 | with an empty map every key counts |
| `Pendencias.NumAusentesZero` | components/NotificacaoBell.tsx:77-84 | the count is zero if and only if every key maps to true |
| `Pendencias.ChavesPeriodos` | components/NotificacaoBell.tsx:77-80 | the looked-up keys, one per period: two positions share a key if and only if they hold the same period |
| `Pendencias.ChavesPeriodosDistintas` | components/NotificacaoBell.tsx:77-80 | the enumerated periods have pairwise distinct keys, so no period is looked up twice and no deduplication is needed |
| `Pendencias.NumPendentes` | components/NotificacaoBell.tsx:77-84 | pending is at most the number of periods, and equals it when the map is empty |
| `Pendencias.NumPendentesZero` | components/NotificacaoBell.tsx:77-84 | pending is 0 if and only if every period is settled |
| `Pendencias.NumPendentesConta` | components/NotificacaoBell.tsx:77-84 | pending equals the number of periods whose key is missing or false |
| `Pendencias.ContarPendentes` | components/NotificacaoBell.tsx:77-84 | the counting loop returns exactly the pending count |
| `Pendencias.VerificarPendenciasPagamento` | components/NotificacaoBell.tsx:62-84 | with the corrected March name: the badge value is the pending count of the enumerated periods against the payment map; it is at most the number of periods, and equals it when there are no payments |
| `Pendencias.LinhaUnicaQuitaSeuMes` | components/NotificacaoBell.tsx:71-83 | a single receipted row, as the registration form stores it, settles its own month of its year and no other month |
| `Pendencias.CenarioJaneiroAMarcoPeriodos` | components/NotificacaoBell.tsx:71-84 | January to March of any year with a receipted January row gives 2 pending |
| `Pendencias.CenarioJaneiroAMarco` | components/NotificacaoBell.tsx:12-84 | a contract from January 2024, today in March 2024: the enumeration gives January to March 2024, and with a receipted January payment the count `VerificarPendenciasPagamento` returns for them is 2 |
| `Pendencias.ChavePeriodoComoEscrito` | components/NotificacaoBell.tsx:33 | as written, every month's key is the corrected one except March's, which holds an upper-case letter |
| `Pendencias.MarcoNuncaQuitadoComoEscrito` | components/NotificacaoBell.tsx:71-84 | with the table as written, no payment rows ever put March's key in the map |
| `Pendencias.MarcoRegistradoQuitado` | components/NotificacaoBell.tsx:71-84 | with the corrected table, a receipted March payment as the form stores it settles March |
| `Pendencias.MarcoPendenteSoComoEscrito` | components/NotificacaoBell.tsx:33 | a contract starting this March, today in March, and a receipted "Março" row: the table as written counts 1 pending, the corrected table 0 |

## Findings

| source | as written | input that shows it | evidently intended | confidence | as-written member | corrected member |
|---|---|---|---|---|---|---|
| components/NotificacaoBell.tsx:33 | March's name is `marÃ§o`: U+00C3 U+00A7, the UTF-8 bytes of "ç" read as Latin-1 | a row `{ mes: "Março", ano: 2024, comprovante_url: "…" }`, as `RegistrarPagamento.tsx` stores it, has the key `março_2024`, but March 2024 is looked up under `marÃ§o_2024`; lower-casing never yields U+00C3, so March counts as pending in every year whatever was paid | `março`, as in the other screens' tables | high; not executed | `Pendencias.MarcoNuncaQuitadoComoEscrito` (with `Meses.NomeMesComoEscrito`, `Pendencias.ChavePeriodoComoEscrito`, `Pendencias.MarcoPendenteSoComoEscrito`) | `Pendencias.MarcoRegistradoQuitado` (with `Meses.NomeMesPorNumero`, `Meses.RegistroCasaNomeMes`) |

## Left out

- Remote data access (components/NotificacaoBell.tsx:44-69) is not modelled. This covers the signed-in user, the non-cancelled contract query and the payments query. The model takes the contract start and the payment rows as inputs. When any of these early returns fires, the source never updates the badge; the model does not cover that case.
- `Date` parsing and `new Date()` (lines 59-60) are not modelled. They depend on the runtime, the timezone and the locale. The model takes (year, month index 0..11) pairs, as `getFullYear`/`getMonth` return them. An unparseable start date (`NaN` fields, so an empty list) is not modelled.
- `new Date("YYYY-MM-01")` parses a date-only string as UTC midnight, while `getMonth` reads local time. West of UTC (for example UTC-3) the start month therefore comes out one month early, and the badge counts one extra period. The model takes the month as given and does not capture this shift.
- The payments query (lines 64-67) has no `order`. When several rows share a key, "the last row" is the last in whatever order the database returns, so the badge can depend on that order. The model takes the rows in the order given; `Pendencias.UltimaLinhaPrevalece` states the dependence.
- React state, the effect and the badge rendering (lines 39-42, 86-103) are UI and are not modelled.
- `pagamentos?.forEach` on a null result is modelled as an empty sequence of rows.
- A row whose `mes` is null would make `toLowerCase` throw, so the badge would never be set. This is not modelled: a row's month name is a string.
- A row's `ano` is modelled as an integer. A non-integer value in that column would render differently in the key.
- `Texto.MinusculaChar`: lower-casing is modelled for the ASCII and Latin-1 letters only. Every other character is left unchanged, although JavaScript applies the full Unicode case mapping, including one-to-many expansions. The month names and the March finding involve only characters in the modelled range.
- `Meses.NomeMesPorNumero`: requires a month in 1..12 instead of modelling the `undefined` that the array lookup gives outside that range. Its only caller passes enumerated months, which `Calendario.PeriodosTamanho` proves are in range.
- Years are unbounded integers. JavaScript years lie within ±275760, where numbers are exact.
- The other screens and components (navigation bar, login, filters, buttons, layouts) are presentation only. The nearest-stop distance computation is not part of this model; it lives in other screens and uses floating point.
