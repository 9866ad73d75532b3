/** The people-directory form (ViewModels/PersonasViewModel.cs): four
    text fields, a photo path with its pending bytes, the selected person,
    the listing, and the validation / add / update / delete / clear
    commands. The directory store is abstract: each command records the
    write it asks for, and the listing the store returns afterwards is a
    parameter. File existence is the set of paths present. The last
    message shown to the user is kept as a field. */
module PersonasVista {
  import opened Comun
  import opened Personas

  const ErrorNombre: string := "El nombre es obligatorio"
  const ErrorApellido: string := "El apellido es obligatorio"
  const ErrorMatricula: string := "La matrícula es obligatoria"
  const ErrorTipoPersona: string := "El tipo de persona es obligatorio"
  const ErrorEditar: string := "Seleccione una persona para editar"
  const ErrorEliminar: string := "Seleccione una persona para eliminar"
  const PersonaAgregada: string := "Persona agregada correctamente"
  const PersonaActualizada: string := "Persona actualizada correctamente"
  const PersonaEliminada: string := "Persona eliminada correctamente"

  /** The categories offered in the form. */
  const TiposPersona: seq<string> := ["Asesor", "Brigadista", "Administrativo"]

  /** A write asked of the directory store, with the pending photo bytes
      where the command passes them. */
  datatype Escritura =
    | Alta(persona: Persona, foto: Option<seq<byte>>)
    | Cambio(persona: Persona, foto: Option<seq<byte>>)
    | Baja(persona: Persona)

  /** Validar's outcome: the message of the first blank field, checked in
      the order name, surname, enrolment number, category; None when all
      four are filled in. */
  function Validacion(nombre: Option<string>, apellido: Option<string>,
                      matricula: Option<string>, tipo: Option<string>): (r: Option<string>)
    ensures r.None? <==>
      !EsNuloOBlanco(nombre) && !EsNuloOBlanco(apellido)
      && !EsNuloOBlanco(matricula) && !EsNuloOBlanco(tipo)
    ensures EsNuloOBlanco(nombre) ==> r == Some(ErrorNombre)
    ensures !EsNuloOBlanco(nombre) && EsNuloOBlanco(apellido) ==> r == Some(ErrorApellido)
    ensures !EsNuloOBlanco(nombre) && !EsNuloOBlanco(apellido) && EsNuloOBlanco(matricula) ==>
      r == Some(ErrorMatricula)
    ensures (!EsNuloOBlanco(nombre) && !EsNuloOBlanco(apellido) && !EsNuloOBlanco(matricula)
             && EsNuloOBlanco(tipo)) ==> r == Some(ErrorTipoPersona)
  {
    if EsNuloOBlanco(nombre) then Some(ErrorNombre)
    else if EsNuloOBlanco(apellido) then Some(ErrorApellido)
    else if EsNuloOBlanco(matricula) then Some(ErrorMatricula)
    else if EsNuloOBlanco(tipo) then Some(ErrorTipoPersona)
    else None
  }

  /** The person Agregar hands to the store: the four fields trimmed, the
      stored photo path "", and the id left for the store to assign. */
  function NuevaPersona(nombre: string, apellido: string, matricula: string, tipo: string): (p: Persona)
    ensures p.rutaFotoGuardada == Some("") && !TieneImagenPersonalizada(p)
  {
    Persona(0, Recortar(nombre), Recortar(apellido), Recortar(matricula), Recortar(tipo), Some(""))
  }

  /** The person Actualizar hands to the store: the selection with its four
      text fields replaced by the trimmed form values; its id and stored
      photo path are kept. */
  function Editada(p: Persona, nombre: string, apellido: string, matricula: string, tipo: string): (q: Persona)
    ensures q.id == p.id && q.rutaFotoGuardada == p.rutaFotoGuardada
    ensures q == NuevaPersona(nombre, apellido, matricula, tipo).(id := p.id, rutaFotoGuardada := p.rutaFotoGuardada)
  {
    p.(nombre := Recortar(nombre), apellido := Recortar(apellido),
       matricula := Recortar(matricula), tipoPersona := Recortar(tipo))
  }

  /** Non-empty, with no whitespace at either end, and left as it is by
      trimming. */
  predicate Limpio(s: string) {
    s != "" && !EsEspacio(s[0]) && !EsEspacio(s[|s| - 1]) && Recortar(s) == s
  }

  /** A text that is not blank trims to a clean one. */
  lemma RecortarNoBlanco(s: string)
    requires !EnBlanco(s)
    ensures Limpio(Recortar(s))
  {
    RecortarVacio(s);
    RecortarEsSegmento(s);
    RecortarIdempotente(s);
  }

  /** A form that passes validation never hands the store an empty or
      padded name, surname, enrolment number or category, whether it adds
      or edits. */
  lemma {:induction false} ValidacionDaCamposLimpios(nombre: Option<string>, apellido: Option<string>,
                                                     matricula: Option<string>, tipo: Option<string>, p: Persona)
    requires Validacion(nombre, apellido, matricula, tipo).None?
    ensures nombre.Some? && apellido.Some? && matricula.Some? && tipo.Some?
    ensures var q := NuevaPersona(nombre.value, apellido.value, matricula.value, tipo.value);
      Limpio(q.nombre) && Limpio(q.apellido) && Limpio(q.matricula) && Limpio(q.tipoPersona)
    ensures var q := Editada(p, nombre.value, apellido.value, matricula.value, tipo.value);
      Limpio(q.nombre) && Limpio(q.apellido) && Limpio(q.matricula) && Limpio(q.tipoPersona)
  {
    RecortarNoBlanco(nombre.value);
    RecortarNoBlanco(apellido.value);
    RecortarNoBlanco(matricula.value);
    RecortarNoBlanco(tipo.value);
  }

  class PersonasViewModel {
    var personas: seq<Persona>
    var personaSeleccionada: Option<Persona>
    var nombre: Option<string>
    var apellido: Option<string>
    var matricula: Option<string>
    var tipoPersona: Option<string>
    var rutaFoto: Option<string>
    var fotoTemporalBytes: Option<seq<byte>>
    /** The writes asked of the store so far, oldest first. */
    var escrituras: seq<Escritura>
    /** Paths of the files that exist. */
    var archivos: set<string>
    /** The last error or information message shown. */
    var mensaje: Option<string>

    /** The whole state but the message. */
    ghost function Estado(): (Option<Persona>, seq<Persona>, seq<Escritura>, set<string>,
                              (Option<string>, Option<string>, Option<string>, Option<string>,
                               Option<string>, Option<seq<byte>>))
      reads this
    {
      (personaSeleccionada, personas, escrituras, archivos,
       (nombre, apellido, matricula, tipoPersona, rutaFoto, fotoTemporalBytes))
    }

    /** The form as Limpiar leaves it. */
    ghost predicate EnBlancoFormulario()
      reads this
    {
      nombre == Some("") && apellido == Some("") && matricula == Some("")
      && tipoPersona.None? && rutaFoto.None? && fotoTemporalBytes.None?
      && personaSeleccionada.None?
    }

    /** Loads the listing and clears the form. */
    constructor (listado: seq<Persona>, archivos: set<string>)
      ensures personas == listado && this.archivos == archivos
      ensures EnBlancoFormulario() && escrituras == [] && mensaje.None?
    {
      personas := [];
      personaSeleccionada := None;
      nombre := None;
      apellido := None;
      matricula := None;
      tipoPersona := None;
      rutaFoto := None;
      fotoTemporalBytes := None;
      escrituras := [];
      this.archivos := archivos;
      mensaje := None;
      new;
      CargarPersonas(listado);
      Limpiar();
    }

    /** CargarPersonas: the listing is cleared and refilled, one person at
        a time, from what the store returns. */
    method CargarPersonas(listado: seq<Persona>)
      modifies this`personas
      ensures personas == listado
    {
      personas := [];
      var i := 0;
      while i < |listado|
        invariant 0 <= i <= |listado|
        invariant personas == listado[..i]
      {
        personas := personas + [listado[i]];
        i := i + 1;
      }
    }

    /** The PersonaSeleccionada setter. A different person is stored; a
        person's four fields and resolved photo path are copied into the
        form and pending bytes discarded; null clears the form. The same
        value changes nothing. It calls Limpiar, which calls it back with
        null; that inner call finds null already stored, so the two
        terminate. */
    method SetPersonaSeleccionada(valor: Option<Persona>)
      modifies this
      decreases if personaSeleccionada.Some? then 1 else 0, 0
      ensures valor == old(personaSeleccionada) ==> unchanged(this)
      ensures personaSeleccionada == valor
      ensures valor != old(personaSeleccionada) && valor.Some? ==>
        nombre == Some(valor.value.nombre) && apellido == Some(valor.value.apellido)
        && matricula == Some(valor.value.matricula) && tipoPersona == Some(valor.value.tipoPersona)
        && rutaFoto == RutaFoto(valor.value, archivos) && fotoTemporalBytes.None?
      ensures valor != old(personaSeleccionada) && valor.None? ==> EnBlancoFormulario()
      ensures personas == old(personas) && escrituras == old(escrituras)
      ensures archivos == old(archivos) && mensaje == old(mensaje)
    {
      if personaSeleccionada != valor {
        personaSeleccionada := valor;
        if valor.Some? {
          nombre := Asignar(nombre, Some(valor.value.nombre)).0;
          apellido := Asignar(apellido, Some(valor.value.apellido)).0;
          matricula := Asignar(matricula, Some(valor.value.matricula)).0;
          tipoPersona := Asignar(tipoPersona, Some(valor.value.tipoPersona)).0;
          rutaFoto := RutaFoto(valor.value, archivos);
          fotoTemporalBytes := None;
        } else {
          Limpiar();
        }
      }
    }

    /** Limpiar: empty text fields, no category, no photo, no pending
        bytes, no selection. */
    method Limpiar()
      modifies this
      decreases if personaSeleccionada.Some? then 1 else 0, 1
      ensures EnBlancoFormulario()
      ensures personas == old(personas) && escrituras == old(escrituras)
      ensures archivos == old(archivos) && mensaje == old(mensaje)
    {
      nombre := Some("");
      apellido := Some("");
      matricula := Some("");
      tipoPersona := None;
      rutaFoto := None;
      fotoTemporalBytes := None;
      SetPersonaSeleccionada(None);
    }

    /** LimpiarImagen: drops the photo path and the pending bytes only. */
    method LimpiarImagen()
      modifies this`rutaFoto, this`fotoTemporalBytes
      ensures rutaFoto.None? && fotoTemporalBytes.None?
    {
      rutaFoto := None;
      fotoTemporalBytes := None;
    }

    /** Validar: true exactly when the four fields are filled in;
        otherwise the first blank field's message is shown. */
    method Validar() returns (ok: bool)
      modifies this`mensaje
      ensures ok <==> Validacion(nombre, apellido, matricula, tipoPersona).None?
      ensures !ok ==> mensaje == Validacion(nombre, apellido, matricula, tipoPersona)
      ensures ok ==> mensaje == old(mensaje)
    {
      var error := Validacion(nombre, apellido, matricula, tipoPersona);
      ok := error.None?;
      if !ok {
        mensaje := error;
      }
    }

    /** Agregar: when the form validates, asks the store to add the new
        person with the pending photo bytes, reloads the listing from
        `listado` and clears the form; otherwise only the validation
        message changes. */
    method Agregar(listado: seq<Persona>)
      modifies this
      ensures Validacion(old(nombre), old(apellido), old(matricula), old(tipoPersona)).Some? ==>
        Estado() == old(Estado())
        && mensaje == Validacion(old(nombre), old(apellido), old(matricula), old(tipoPersona))
      ensures Validacion(old(nombre), old(apellido), old(matricula), old(tipoPersona)).None? ==>
        old(nombre).Some? && old(apellido).Some? && old(matricula).Some? && old(tipoPersona).Some?
        && escrituras == old(escrituras) + [Alta(
             NuevaPersona(old(nombre).value, old(apellido).value, old(matricula).value, old(tipoPersona).value),
             old(fotoTemporalBytes))]
        && personas == listado && EnBlancoFormulario() && mensaje == Some(PersonaAgregada)
    {
      var ok := Validar();
      if !ok {
        return;
      }
      var nueva := NuevaPersona(nombre.value, apellido.value, matricula.value, tipoPersona.value);
      escrituras := escrituras + [Alta(nueva, fotoTemporalBytes)];
      CargarPersonas(listado);
      Limpiar();
      mensaje := Some(PersonaAgregada);
    }

    /** Actualizar: without a selection reports it and does nothing else;
        with one, validates and, when that passes, asks the store to save
        the selection with the trimmed fields, reloads and clears. */
    method Actualizar(listado: seq<Persona>)
      modifies this
      ensures old(personaSeleccionada).None? ==>
        Estado() == old(Estado()) && mensaje == Some(ErrorEditar)
      ensures (old(personaSeleccionada).Some?
               && Validacion(old(nombre), old(apellido), old(matricula), old(tipoPersona)).Some?) ==>
        Estado() == old(Estado())
        && mensaje == Validacion(old(nombre), old(apellido), old(matricula), old(tipoPersona))
      ensures (old(personaSeleccionada).Some?
               && Validacion(old(nombre), old(apellido), old(matricula), old(tipoPersona)).None?) ==>
        old(nombre).Some? && old(apellido).Some? && old(matricula).Some? && old(tipoPersona).Some?
        && escrituras == old(escrituras) + [Cambio(
             Editada(old(personaSeleccionada).value,
                     old(nombre).value, old(apellido).value, old(matricula).value, old(tipoPersona).value),
             old(fotoTemporalBytes))]
        && personas == listado && EnBlancoFormulario() && mensaje == Some(PersonaActualizada)
    {
      if personaSeleccionada.None? {
        mensaje := Some(ErrorEditar);
        return;
      }
      var ok := Validar();
      if !ok {
        return;
      }
      var editada := Editada(personaSeleccionada.value, nombre.value, apellido.value, matricula.value, tipoPersona.value);
      escrituras := escrituras + [Cambio(editada, fotoTemporalBytes)];
      CargarPersonas(listado);
      Limpiar();
      mensaje := Some(PersonaActualizada);
    }

    /** Eliminar: without a selection reports it and does nothing else;
        with one, asks the store to remove it, reloads and clears. */
    method Eliminar(listado: seq<Persona>)
      modifies this
      ensures old(personaSeleccionada).None? ==>
        Estado() == old(Estado()) && mensaje == Some(ErrorEliminar)
      ensures old(personaSeleccionada).Some? ==>
        escrituras == old(escrituras) + [Baja(old(personaSeleccionada).value)]
        && personas == listado && EnBlancoFormulario() && mensaje == Some(PersonaEliminada)
    {
      if personaSeleccionada.None? {
        mensaje := Some(ErrorEliminar);
        return;
      }
      escrituras := escrituras + [Baja(personaSeleccionada.value)];
      CargarPersonas(listado);
      Limpiar();
      mensaje := Some(PersonaEliminada);
    }

    /** TieneFoto */
    function TieneFoto(): (b: bool)
      reads this
      ensures b <==> rutaFoto.Some? && rutaFoto.value != ""
    {
      !EsNuloOVacio(rutaFoto)
    }

    /** The file the preview shows (ActualizarPreviewFoto): the form's
        photo when it is set and exists, else the default image when it
        exists, else none. Whatever is shown exists. */
    function FuenteVistaPrevia(): (r: Option<string>)
      reads this
      ensures r.Some? ==> r.value in archivos
      ensures TieneFoto() && rutaFoto.value in archivos ==> r == rutaFoto
      ensures r.None? <==>
        (!TieneFoto() || rutaFoto.value !in archivos) && RutaImagenPorDefecto !in archivos
      ensures r.Some? && r != rutaFoto ==> r == Some(RutaImagenPorDefecto)
    {
      if TieneFoto() && rutaFoto.value in archivos then rutaFoto
      else if RutaImagenPorDefecto in archivos then Some(RutaImagenPorDefecto)
      else None
    }
  }

  /** After clearing, the form has no photo, and the preview falls back to
      the default image when it exists. Selecting a person with a custom
      photo shows that photo whenever its file exists. */
  lemma VistaPreviaTrasLimpiarOSeleccionar(vm: PersonasViewModel, p: Persona)
    ensures vm.EnBlancoFormulario() ==>
      !vm.TieneFoto() && vm.FuenteVistaPrevia() == (if RutaImagenPorDefecto in vm.archivos then Some(RutaImagenPorDefecto) else None)
    ensures (vm.rutaFoto == RutaFoto(p, vm.archivos) && TieneImagenPersonalizada(p)
             && p.rutaFotoGuardada.value in vm.archivos) ==>
      vm.TieneFoto() && vm.FuenteVistaPrevia() == p.rutaFotoGuardada
  {
  }
}
