/** Month names: the lower-case table nomeMesPorNumero reads from, the table
    exactly as that file spells it, and the capitalised names the payment
    registration screen stores in the `mes` column. */
module Meses {
  import opened Texto

  /** Lower-case Portuguese month names, January first. */
  const MESES: seq<string> := [
    "janeiro", "fevereiro", "mar\U{E7}o", "abril", "maio", "junho",
    "julho", "agosto", "setembro", "outubro", "novembro", "dezembro"
  ]

  /** The same table as the notification bell spells it: its third entry
      holds the two characters U+00C3 U+00A7 (the UTF-8 bytes of the
      c-cedilla read as Latin-1) where the c-cedilla belongs. */
  const MESES_COMO_ESCRITO: seq<string> := [
    "janeiro", "fevereiro", "mar\U{C3}\U{A7}o", "abril", "maio", "junho",
    "julho", "agosto", "setembro", "outubro", "novembro", "dezembro"
  ]

  /** The names offered by the payment registration form and stored as typed. */
  const MESES_REGISTRO: seq<string> := [
    "Janeiro", "Fevereiro", "Mar\U{E7}o", "Abril", "Maio", "Junho",
    "Julho", "Agosto", "Setembro", "Outubro", "Novembro", "Dezembro"
  ]

  /** Inverse lookup of the lower-case table, 0 for an unknown name. */
  function NumeroPorNome(nome: string): (m: int)
    ensures 0 <= m <= 12
  {
    if nome == "janeiro" then 1
    else if nome == "fevereiro" then 2
    else if nome == "mar\U{E7}o" then 3
    else if nome == "abril" then 4
    else if nome == "maio" then 5
    else if nome == "junho" then 6
    else if nome == "julho" then 7
    else if nome == "agosto" then 8
    else if nome == "setembro" then 9
    else if nome == "outubro" then 10
    else if nome == "novembro" then 11
    else if nome == "dezembro" then 12
    else 0
  }

  /** Every entry of the lower-case table is free of upper-case letters. */
  lemma MesesSemMaiusculas(m: int)
    requires 1 <= m <= 12
    ensures SemMaiusculas(MESES[m - 1])
  {
    match m {
      case 1 => assert SemMaiusculas("janeiro");
      case 2 => assert SemMaiusculas("fevereiro");
      case 3 => assert SemMaiusculas("mar\U{E7}o");
      case 4 => assert SemMaiusculas("abril");
      case 5 => assert SemMaiusculas("maio");
      case 6 => assert SemMaiusculas("junho");
      case 7 => assert SemMaiusculas("julho");
      case 8 => assert SemMaiusculas("agosto");
      case 9 => assert SemMaiusculas("setembro");
      case 10 => assert SemMaiusculas("outubro");
      case 11 => assert SemMaiusculas("novembro");
      case 12 => assert SemMaiusculas("dezembro");
    }
  }

  /** nomeMesPorNumero (with the c-cedilla of March spelt correctly): the
      name of a month numbered 1 to 12. The inverse lookup reads it back to
      its number, and it holds no upper-case letter. */
  function NomeMesPorNumero(m: int): (nome: string)
    requires 1 <= m <= 12
    ensures NumeroPorNome(nome) == m
    ensures SemMaiusculas(nome)
  {
    MesesSemMaiusculas(m);
    MESES[m - 1]
  }

  /** Every month name is its own lower case. */
  lemma NomeMesMinusculo(m: int)
    requires 1 <= m <= 12
    ensures Minusculas(NomeMesPorNumero(m)) == NomeMesPorNumero(m)
  {
    MinusculasPreserva(NomeMesPorNumero(m));
  }

  /** Every name the registration form stores lower-cases to the name of the
      same month, so a registered payment can match its period. */
  lemma RegistroCasaNomeMes(m: int)
    requires 1 <= m <= 12
    ensures Minusculas(MESES_REGISTRO[m - 1]) == NomeMesPorNumero(m)
  {
    var r, n := MESES_REGISTRO[m - 1], NomeMesPorNumero(m);
    assert MinusculaChar(r[0]) == n[0] && r[1..] == n[1..] by {
      match m {
        case 1 => case 2 => case 3 => case 4 => case 5 => case 6 =>
        case 7 => case 8 => case 9 => case 10 => case 11 => case 12 =>
      }
    }
    MinusculasCapitalizado(r, n);
  }

  /** nomeMesPorNumero as written: it agrees with the corrected table on every
      month but March, and its March name is not in lower case. */
  function NomeMesComoEscrito(m: int): (nome: string)
    requires 1 <= m <= 12
    ensures m != 3 ==> nome == NomeMesPorNumero(m)
    ensures m == 3 ==> |nome| > 3 && EhMaiuscula(nome[3])
  {
    MESES_COMO_ESCRITO[m - 1]
  }
}
