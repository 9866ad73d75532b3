/** Photo path composition (Helpers/ImagePathHelper.cs) over a model of
    System.IO.Path.Combine with '/' as the directory separator. */
module Rutas {

  const Separador: char := '/'

  /** Path.IsPathRooted on a Unix-style path. */
  predicate EsRaiz(p: string) {
    |p| > 0 && p[0] == Separador
  }

  predicate TerminaEnSeparador(p: string) {
    |p| > 0 && p[|p| - 1] == Separador
  }

  /** Path.Combine(a, b): a rooted b replaces a; an empty side yields the
      other; otherwise one separator joins them. */
  function Combinar(a: string, b: string): (r: string)
    ensures EsRaiz(b) ==> r == b
    ensures !EsRaiz(b) ==> |r| >= |a| && r[..|a|] == a
  {
    if EsRaiz(b) then b
    else if b == "" then a
    else if a == "" then b
    else if TerminaEnSeparador(a) then a + b
    else a + [Separador] + b
  }

  /** With a fixed first part, Combine tells apart any two second parts
      that are not rooted. */
  lemma CombinarInyectiva(a: string, b1: string, b2: string)
    requires !EsRaiz(b1) && !EsRaiz(b2)
    requires Combinar(a, b1) == Combinar(a, b2)
    ensures b1 == b2
  {
    var r1, r2 := Combinar(a, b1), Combinar(a, b2);
    if b1 != "" && b2 != "" && a != "" && !TerminaEnSeparador(a) {
      assert r1[|a| + 1..] == b1;
      assert r2[|a| + 1..] == b2;
    } else if b1 != "" && b2 != "" && a != "" {
      assert r1[|a|..] == b1;
      assert r2[|a|..] == b2;
    }
  }

  /** The folder under the user's desktop where photos are kept. */
  function RutaBaseImagenes(escritorio: string): (r: string)
  {
    Combinar(Combinar(escritorio, "ChecadorComunicacion"), "FotosPersonas")
  }

  /** The extension used when the caller gives none. */
  const ExtensionPorDefecto: string := ".jpg"

  /** GetImagePath(matricula, extension) */
  function RutaImagen(escritorio: string, matricula: string, extension: string): (r: string)
  {
    Combinar(RutaBaseImagenes(escritorio), matricula + extension)
  }

  /** GetImagePath(matricula), the extension defaulting to ".jpg". */
  function RutaImagenPredeterminada(escritorio: string, matricula: string): (r: string)
    ensures r == RutaImagen(escritorio, matricula, ".jpg")
  {
    RutaImagen(escritorio, matricula, ExtensionPorDefecto)
  }

  /** GetImagePathForPersona: the path depends on the person only through
      the matricula. */
  function RutaImagenDePersona(escritorio: string, matricula: string, extension: string): (r: string)
    ensures !EsRaiz(matricula + extension) && matricula + extension != "" ==>
      r == RutaBaseImagenes(escritorio) + [Separador] + matricula + extension
  {
    RutaImagen(escritorio, matricula, extension)
  }

  /** The base folder is never empty and never ends in a separator. */
  lemma RutaBaseSinSeparadorFinal(escritorio: string)
    ensures RutaBaseImagenes(escritorio) != ""
    ensures !TerminaEnSeparador(RutaBaseImagenes(escritorio))
  {
    var a := Combinar(escritorio, "ChecadorComunicacion");
    var b := Combinar(a, "FotosPersonas");
    assert b[|b| - 1] == 's';
  }

  /** Distinct matriculas give distinct photo paths, for one extension and
      matriculas that do not start with a separator. */
  lemma RutasDistintas(escritorio: string, m1: string, m2: string, extension: string)
    requires !EsRaiz(m1 + extension) && !EsRaiz(m2 + extension)
    requires m1 != m2
    ensures RutaImagen(escritorio, m1, extension) != RutaImagen(escritorio, m2, extension)
  {
    assert (m1 + extension)[..|m1|] == m1 && (m2 + extension)[..|m2|] == m2;
    if RutaImagen(escritorio, m1, extension) == RutaImagen(escritorio, m2, extension) {
      CombinarInyectiva(RutaBaseImagenes(escritorio), m1 + extension, m2 + extension);
    }
  }
}
