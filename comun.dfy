/** Shared vocabulary of the attendance model: optional values (C# null),
    bytes, the .NET whitespace/trim rules on strings, ordinal string order
    and the "HH:mm" / "HH:mm:ss" time-of-day formats. */
module Comun {

  /** A reference or string that may be null. */
  datatype Option<+T> = None | Some(value: T)

  /** System.Byte. */
  newtype byte = x: int | 0 <= x < 256

  /** The (byte) cast of C#: keeps the low eight bits of a non-negative int. */
  function ComoByte(n: nat): (b: byte)
    ensures b as int == n % 256
    ensures n < 256 ==> b as int == n
  {
    (n % 256) as byte
  }

  // ---------------------------------------------------------------------
  // Whitespace and trimming (string.IsNullOrWhiteSpace, string.Trim)
  // ---------------------------------------------------------------------

  /** The ASCII members of char.IsWhiteSpace. */
  predicate EsEspacio(c: char) {
    c == ' ' || c == '\t' || c == '\n' || c == '\r' || c == '\U{000B}' || c == '\U{000C}'
  }

  /** Every character of s is whitespace (the empty string included). */
  predicate EnBlanco(s: string) {
    forall i :: 0 <= i < |s| ==> EsEspacio(s[i])
  }

  /** string.IsNullOrWhiteSpace */
  predicate EsNuloOBlanco(s: Option<string>) {
    s.None? || EnBlanco(s.value)
  }

  /** string.IsNullOrEmpty */
  predicate EsNuloOVacio(s: Option<string>) {
    s.None? || s.value == ""
  }

  /** The index of the first non-whitespace character at or after i, or
      |s| when there is none. */
  function PrimerNoEspacio(s: string, i: nat): (n: nat)
    requires i <= |s|
    ensures i <= n <= |s|
    ensures forall k :: i <= k < n ==> EsEspacio(s[k])
    ensures n == |s| || !EsEspacio(s[n])
    decreases |s| - i
  {
    if i == |s| || !EsEspacio(s[i]) then i else PrimerNoEspacio(s, i + 1)
  }

  /** The index just past the last non-whitespace character before j, or 0
      when there is none. */
  function FinNoEspacio(s: string, j: nat): (n: nat)
    requires j <= |s|
    ensures n <= j
    ensures forall k :: n <= k < j ==> EsEspacio(s[k])
    ensures n == 0 || !EsEspacio(s[n - 1])
  {
    if j == 0 || !EsEspacio(s[j - 1]) then j else FinNoEspacio(s, j - 1)
  }

  /** String.TrimStart() */
  function QuitarInicio(s: string): (r: string)
    ensures |r| <= |s| && r == s[|s| - |r|..]
    ensures r == "" || !EsEspacio(r[0])
    ensures EnBlanco(s[..|s| - |r|])
  {
    var n := PrimerNoEspacio(s, 0);
    assert forall k :: 0 <= k < n ==> s[..n][k] == s[k];
    s[n..]
  }

  /** String.TrimEnd() */
  function QuitarFinal(s: string): (r: string)
    ensures |r| <= |s| && r == s[..|r|]
    ensures r == "" || !EsEspacio(r[|r| - 1])
    ensures EnBlanco(s[|r|..])
  {
    var n := FinNoEspacio(s, |s|);
    assert forall k :: n <= k < |s| ==> s[n..][k - n] == s[k];
    s[..n]
  }

  /** String.Trim(): the longest slice of s without whitespace at either end. */
  function Recortar(s: string): (r: string)
  {
    QuitarFinal(QuitarInicio(s))
  }

  /** Trim removes exactly a blank prefix and a blank suffix; the slice it
      keeps begins and ends with a non-blank character. */
  lemma RecortarEsSegmento(s: string)
    ensures var r := Recortar(s);
      exists i :: 0 <= i <= |s| - |r| && r == s[i..i + |r|]
        && EnBlanco(s[..i]) && EnBlanco(s[i + |r|..])
    ensures Recortar(s) == "" || (!EsEspacio(Recortar(s)[0]) && !EsEspacio(Recortar(s)[|Recortar(s)| - 1]))
  {
    var t := QuitarInicio(s);
    var r := QuitarFinal(t);
    var i := |s| - |t|;
    assert t == s[i..];
    assert r == s[i..i + |r|];
    assert s[i + |r|..] == t[|r|..];
    assert EnBlanco(s[..i]) && EnBlanco(s[i + |r|..]);
    if r != "" {
      assert r[0] == t[0];
    }
  }

  /** Trimming yields the empty string exactly when the string is blank. */
  lemma {:induction false} RecortarVacio(s: string)
    ensures Recortar(s) == "" <==> EnBlanco(s)
  {
    var t := QuitarInicio(s);
    if !EnBlanco(s) {
      var k :| 0 <= k < |s| && !EsEspacio(s[k]);
      assert t[0] == s[|s| - |t|];
    }
  }

  /** Trimming twice is trimming once. */
  lemma RecortarIdempotente(s: string)
    ensures Recortar(Recortar(s)) == Recortar(s)
  {
    var r := Recortar(s);
    RecortarEsSegmento(s);
    if r != "" {
      assert PrimerNoEspacio(r, 0) == 0;
      assert r[0..] == r;
      assert FinNoEspacio(r, |r|) == |r|;
      assert r[..|r|] == r;
    }
  }

  // ---------------------------------------------------------------------
  // Ordinal string order (stands for the culture-aware comparer)
  // ---------------------------------------------------------------------

  /** a <= b in lexicographic order of character codes. */
  predicate TextoMenorIgual(a: string, b: string) {
    if a == [] then true
    else if b == [] then false
    else if a[0] != b[0] then a[0] < b[0]
    else TextoMenorIgual(a[1..], b[1..])
  }

  lemma {:induction false} TextoMenorIgualTotal(a: string, b: string)
    ensures TextoMenorIgual(a, b) || TextoMenorIgual(b, a)
  {
    if a != [] && b != [] && a[0] == b[0] {
      TextoMenorIgualTotal(a[1..], b[1..]);
    }
  }

  lemma {:induction false} TextoMenorIgualTransitivo(a: string, b: string, c: string)
    requires TextoMenorIgual(a, b) && TextoMenorIgual(b, c)
    ensures TextoMenorIgual(a, c)
  {
    if a != [] && b != [] && c != [] && a[0] == b[0] && b[0] == c[0] {
      TextoMenorIgualTransitivo(a[1..], b[1..], c[1..]);
    }
  }

  // ---------------------------------------------------------------------
  // Time of day as ticks and its "HH:mm" / "HH:mm:ss" renderings
  // ---------------------------------------------------------------------

  /** One tick is 100 nanoseconds, as in TimeSpan. */
  const TicksPorSegundo: int := 10_000_000
  const TicksPorMinuto: int := 60 * TicksPorSegundo
  const TicksPorHora: int := 60 * TicksPorMinuto
  const TicksPorDia: int := 24 * TicksPorHora

  /** A TimeOnly value: ticks since midnight. */
  predicate EsHora(t: int) {
    0 <= t < TicksPorDia
  }

  type HoraDelDia = t: int | EsHora(t)

  function Digito(n: nat): (c: char)
    requires n < 10
  {
    (48 + n) as char
  }

  function ValorDigito(c: char): int {
    c as int - 48
  }

  /** A number below 100 written with two decimal digits ("07", "23"). */
  function DosDigitos(n: nat): (s: string)
    requires n < 100
    ensures |s| == 2
    ensures ValorDigito(s[0]) * 10 + ValorDigito(s[1]) == n
  {
    [Digito(n / 10), Digito(n % 10)]
  }

  function HorasDe(t: int): nat requires EsHora(t) { t / TicksPorHora }
  function MinutosDe(t: int): nat requires EsHora(t) { (t / TicksPorMinuto) % 60 }
  function SegundosDe(t: int): nat requires EsHora(t) { (t / TicksPorSegundo) % 60 }

  /** TimeOnly.ToString("HH:mm") */
  function FormatoHHmm(t: int): (s: string)
    requires EsHora(t)
    ensures |s| == 5 && s[2] == ':'
  {
    DosDigitos(HorasDe(t)) + ":" + DosDigitos(MinutosDe(t))
  }

  /** TimeOnly.ToString("HH:mm:ss") */
  function FormatoHHmmss(t: int): (s: string)
    requires EsHora(t)
    ensures |s| == 8 && s[2] == ':' && s[5] == ':'
    ensures s[..5] == FormatoHHmm(t)
    ensures ValorDigito(s[6]) * 10 + ValorDigito(s[7]) == SegundosDe(t) < 60
  {
    FormatoHHmm(t) + ":" + DosDigitos(SegundosDe(t))
  }

  /** Reads back the hour and the minute of an "HH:mm" text. */
  function LeerHHmm(s: string): (int, int)
    requires |s| == 5
  {
    (ValorDigito(s[0]) * 10 + ValorDigito(s[1]), ValorDigito(s[3]) * 10 + ValorDigito(s[4]))
  }

  /** "HH:mm" loses only the seconds and below: reading it back gives the
      hour (0..23) and the minute of the time of day. */
  lemma FormatoHHmmLegible(t: int)
    requires EsHora(t)
    ensures LeerHHmm(FormatoHHmm(t)) == (HorasDe(t), MinutosDe(t))
    ensures 0 <= HorasDe(t) < 24 && 0 <= MinutosDe(t) < 60
  {
    var h, m := DosDigitos(HorasDe(t)), DosDigitos(MinutosDe(t));
    assert FormatoHHmm(t) == h + ":" + m;
    assert FormatoHHmm(t)[0] == h[0] && FormatoHHmm(t)[1] == h[1];
    assert FormatoHHmm(t)[3] == m[0] && FormatoHHmm(t)[4] == m[1];
  }

  // ---------------------------------------------------------------------
  // Property assignment with change notification
  // ---------------------------------------------------------------------

  /** SetProperty: stores the value and reports whether it differed (the
      change notification is raised exactly then). */
  function Asignar<T(==)>(actual: T, valor: T): (r: (T, bool))
    ensures r.0 == valor
    ensures r.1 <==> actual != valor
  {
    (valor, actual != valor)
  }

  /** Assigning the value a property already holds reports no change, so
      a second identical assignment never notifies. */
  lemma AsignarDosVeces<T>(actual: T, valor: T)
    ensures !Asignar(Asignar(actual, valor).0, valor).1
    ensures Asignar(Asignar(actual, valor).0, valor).0 == Asignar(actual, valor).0
  {
  }
}
