/** String helpers that the payment-key template relies on: lower-casing
    (String.prototype.toLowerCase) and the decimal rendering of a year
    inside a template literal. */
module Texto {

  /** Upper-case letters that toLowerCase maps to another character, among
      the ASCII and Latin-1 ranges: A-Z and U+00C0..U+00DE except U+00D7. */
  predicate EhMaiuscula(c: char)
  {
    ('A' <= c <= 'Z') || ('\U{C0}' <= c <= '\U{DE}' && c != '\U{D7}')
  }

  /** Lower case of one character: an upper-case letter moves 32 code points
      down the table to its lower-case partner; every other character stays. */
  function MinusculaChar(c: char): (r: char)
    ensures !EhMaiuscula(r)
    ensures !EhMaiuscula(c) ==> r == c
  {
    if EhMaiuscula(c) then (c as int + 32) as char else c
  }

  /** toLowerCase over a whole string, character by character. */
  function Minusculas(s: string): (r: string)
    ensures |r| == |s|
    ensures forall i :: 0 <= i < |s| ==> r[i] == MinusculaChar(s[i])
  {
    if s == [] then [] else [MinusculaChar(s[0])] + Minusculas(s[1..])
  }

  /** A lower-cased string holds no upper-case letter. */
  lemma MinusculasSemMaiusculas(s: string, i: int)
    requires 0 <= i < |s|
    ensures !EhMaiuscula(Minusculas(s)[i])
  {
  }

  /** A string with no upper-case letter in it. */
  predicate SemMaiusculas(s: string)
  {
    forall i :: 0 <= i < |s| ==> !EhMaiuscula(s[i])
  }

  /** Lower-casing leaves a string with no upper-case letter unchanged. */
  lemma MinusculasPreserva(s: string)
    requires SemMaiusculas(s)
    ensures Minusculas(s) == s
  {
  }

  /** A capitalised word lower-cases to the word whose first letter is the
      lower case of its own and whose other letters are its own. */
  lemma MinusculasCapitalizado(r: string, n: string)
    requires |r| == |n| > 0 && MinusculaChar(r[0]) == n[0]
    requires r[1..] == n[1..] && SemMaiusculas(n)
    ensures Minusculas(r) == n
  {
    forall i | 1 <= i < |r|
      ensures r[i] == n[i]
    {
      assert r[1..][i - 1] == r[i];
    }
  }

  predicate EhDigito(c: char) { '0' <= c <= '9' }

  function Digito(d: int): (c: char)
    requires 0 <= d < 10
    ensures EhDigito(c) && c as int - '0' as int == d
  {
    ('0' as int + d) as char
  }

  /** Decimal digits of a natural number, most significant first, without
      leading zeros: what a JavaScript template literal prints for it. */
  function NatParaTexto(n: nat): (s: string)
    ensures |s| >= 1
    ensures forall i :: 0 <= i < |s| ==> EhDigito(s[i])
    ensures |s| > 1 <==> n >= 10
    decreases n
  {
    if n < 10 then [Digito(n)] else NatParaTexto(n / 10) + [Digito(n % 10)]
  }

  /** Decimal rendering of an integer: a minus sign before the digits of its
      magnitude when it is negative. */
  function IntParaTexto(n: int): (s: string)
    ensures |s| >= 1
    ensures forall i :: 0 <= i < |s| ==> s[i] == '-' || EhDigito(s[i])
    ensures s[0] == '-' <==> n < 0
  {
    if n < 0 then "-" + NatParaTexto(-n) else NatParaTexto(n)
  }

  /** Reads back the value of a string of decimal digits. */
  function ValorDecimal(s: string): (n: nat)
    requires forall i :: 0 <= i < |s| ==> EhDigito(s[i])
  {
    if s == [] then 0
    else
      assert EhDigito(s[|s| - 1]);
      10 * ValorDecimal(s[..|s| - 1]) + (s[|s| - 1] as int - '0' as int)
  }

  /** Reading the digits back gives the number that was printed. */
  lemma {:induction false} ValorDecimalNatParaTexto(n: nat)
    ensures ValorDecimal(NatParaTexto(n)) == n
  {
    var s := NatParaTexto(n);
    if n >= 10 {
      ValorDecimalNatParaTexto(n / 10);
      assert s[..|s| - 1] == NatParaTexto(n / 10);
    }
  }

  /** Distinct natural numbers print as distinct digit strings. */
  lemma NatParaTextoInjetiva(a: nat, b: nat)
    requires NatParaTexto(a) == NatParaTexto(b)
    ensures a == b
  {
    ValorDecimalNatParaTexto(a);
    ValorDecimalNatParaTexto(b);
  }

  /** Distinct integers print as distinct strings. */
  lemma IntParaTextoInjetiva(a: int, b: int)
    requires IntParaTexto(a) == IntParaTexto(b)
    ensures a == b
  {
    var t := IntParaTexto(a);
    if a < 0 {
      assert b < 0;
      assert t == "-" + NatParaTexto(-a) == "-" + NatParaTexto(-b);
      assert NatParaTexto(-a) == t[1..] == NatParaTexto(-b);
      NatParaTextoInjetiva(-a, -b);
    } else {
      assert b >= 0;
      NatParaTextoInjetiva(a, b);
    }
  }
}
