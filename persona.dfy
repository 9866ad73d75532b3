/** A person of the directory (Models/Persona.cs) and the resolution of
    the photo that is shown for it. File existence is the set of paths
    that exist, passed in. */
module Personas {
  import opened Comun
  import Rutas

  /** The stored fields of a person; `rutaFotoGuardada` is the private
      `_rutaFoto` behind the `RutaFoto` property (null allowed). */
  datatype Persona = Persona(
    id: int,
    nombre: string,
    apellido: string,
    matricula: string,
    tipoPersona: string,
    rutaFotoGuardada: Option<string>)

  /** Path.Combine("Assets", "default.png") */
  const RutaImagenPorDefecto: string := Rutas.Combinar("Assets", "default.png")

  /** The default image is "Assets/default.png". */
  lemma RutaImagenPorDefectoEs()
    ensures RutaImagenPorDefecto == "Assets/default.png"
  {
    assert !Rutas.EsRaiz("default.png") && !Rutas.TerminaEnSeparador("Assets");
  }

  /** The `RutaFoto` getter: the stored path when it is neither null nor
      empty, otherwise the default image when that file exists, otherwise
      null. */
  function RutaFoto(p: Persona, existentes: set<string>): (r: Option<string>)
    ensures !EsNuloOVacio(p.rutaFotoGuardada) ==> r == p.rutaFotoGuardada
    ensures EsNuloOVacio(p.rutaFotoGuardada) && RutaImagenPorDefecto in existentes ==>
      r == Some("Assets/default.png")
    ensures EsNuloOVacio(p.rutaFotoGuardada) && RutaImagenPorDefecto !in existentes ==> r.None?
  {
    if !EsNuloOVacio(p.rutaFotoGuardada) then p.rutaFotoGuardada
    else if RutaImagenPorDefecto in existentes then
      RutaImagenPorDefectoEs();
      Some(RutaImagenPorDefecto)
    else None
  }

  /** The `RutaFoto` setter stores its argument as it is, "" included. */
  function ConRutaFoto(p: Persona, valor: Option<string>): (q: Persona)
  {
    p.(rutaFotoGuardada := valor)
  }

  /** TieneImagenPersonalizada */
  predicate TieneImagenPersonalizada(p: Persona) {
    !EsNuloOVacio(p.rutaFotoGuardada)
  }

  /** TieneImagenDisponible: the getter gives a non-empty path that exists. */
  predicate TieneImagenDisponible(p: Persona, existentes: set<string>) {
    var r := RutaFoto(p, existentes);
    !EsNuloOVacio(r) && r.value in existentes
  }

  /** Setting a non-empty path and reading it back gives that path,
      whatever files exist; setting null or "" falls back to the default. */
  lemma RutaFotoLeeLoGuardado(p: Persona, valor: Option<string>, existentes: set<string>)
    ensures !EsNuloOVacio(valor) ==> RutaFoto(ConRutaFoto(p, valor), existentes) == valor
    ensures EsNuloOVacio(valor) ==> RutaFoto(ConRutaFoto(p, valor), existentes) == RutaFoto(ConRutaFoto(p, None), existentes)
    ensures ConRutaFoto(p, valor).rutaFotoGuardada == valor
  {
  }

  /** A custom image depends only on the stored value: when there is one
      the getter ignores the file system, and when there is none the
      getter's answer is the default image or null. */
  lemma ImagenPersonalizadaIndependiente(p: Persona, e1: set<string>, e2: set<string>)
    ensures TieneImagenPersonalizada(p) ==> RutaFoto(p, e1) == RutaFoto(p, e2) == p.rutaFotoGuardada
    ensures !TieneImagenPersonalizada(p) ==>
      RutaFoto(p, e1) == Some(RutaImagenPorDefecto) || RutaFoto(p, e1) == None
  {
  }

  /** An available image means the getter returns an existing path, and
      without a custom image that path is the default one. */
  lemma ImagenDisponibleExiste(p: Persona, existentes: set<string>)
    requires TieneImagenDisponible(p, existentes)
    ensures RutaFoto(p, existentes).Some? && RutaFoto(p, existentes).value in existentes
    ensures !TieneImagenPersonalizada(p) ==> RutaFoto(p, existentes) == Some("Assets/default.png")
  {
    RutaImagenPorDefectoEs();
  }
}
