/** The check-in screen's state (ViewModels/ChecadorViewModel.cs): the
    selected person, their latest event and the kind the next check-in
    will have, kept in step with the ledger; the clock reading of a
    check-in is a parameter. */
module ChecadorVista {
  import opened Comun
  import opened Ledger
  import Personas

  const SinRegistrosTexto: string := "Sin registros"

  class ChecadorViewModel {
    /** The ledger the screen reads and appends to. */
    const servicio: ChecadorService
    var personaSeleccionada: Option<Personas.Persona>
    var ultimoChecador: Option<Checador>
    var proximoTipoAccion: Option<string>

    /** What the screen shows agrees with the ledger: nothing for no
        selection, otherwise the person's latest event and next kind. */
    ghost predicate Mostrado()
      reads this, servicio
    {
      match personaSeleccionada
      case None => ultimoChecador.None? && proximoTipoAccion == Some("")
      case Some(p) =>
        ultimoChecador == Ultimo(servicio.checadores, p.id)
        && proximoTipoAccion == Some(TipoAccionSiguiente(servicio.checadores, p.id))
    }

    /** Nothing selected and nothing shown yet. */
    constructor (servicio: ChecadorService)
      ensures this.servicio == servicio
      ensures personaSeleccionada.None? && ultimoChecador.None? && proximoTipoAccion.None?
    {
      this.servicio := servicio;
      personaSeleccionada := None;
      ultimoChecador := None;
      proximoTipoAccion := None;
    }

    /** ActualizarInformacionPersona: reloads what is shown for the
        selection from the ledger. */
    method ActualizarInformacionPersona()
      modifies this
      ensures Mostrado()
      ensures personaSeleccionada == old(personaSeleccionada)
      ensures personaSeleccionada.None? ==> ultimoChecador.None? && proximoTipoAccion == Some("")
    {
      if personaSeleccionada.None? {
        ultimoChecador := None;
        proximoTipoAccion := Some("");
      } else {
        var id := personaSeleccionada.value.id;
        ultimoChecador := Ultimo(servicio.checadores, id);
        proximoTipoAccion := Some(TipoAccionSiguiente(servicio.checadores, id));
      }
    }

    /** The PersonaSeleccionada setter: a different value is stored and
        the screen refreshed; the same value changes nothing. */
    method SetPersonaSeleccionada(valor: Option<Personas.Persona>) returns (cambio: bool)
      modifies this
      ensures cambio <==> valor != old(personaSeleccionada)
      ensures !cambio ==> unchanged(this)
      ensures cambio ==> personaSeleccionada == valor && Mostrado()
    {
      var r := Asignar(personaSeleccionada, valor);
      cambio := r.1;
      if cambio {
        personaSeleccionada := r.0;
        ActualizarInformacionPersona();
      }
    }

    /** RegistrarChecadorAsync at clock reading (fecha, hora): without a
        selection nothing happens; otherwise one event is appended for the
        person and the screen refreshed. When the reading is later than
        all of the person's events, the shown event is the new one and the
        shown next kind is the opposite of the one before. */
    method RegistrarChecadorAsync(fecha: int, hora: HoraDelDia)
      requires servicio.Valid()
      modifies this, servicio
      ensures servicio.Valid()
      ensures old(personaSeleccionada).None? ==> unchanged(this) && unchanged(servicio)
      ensures personaSeleccionada == old(personaSeleccionada)
      ensures personaSeleccionada.Some? ==>
        var id := personaSeleccionada.value.id;
        servicio.checadores == Registrado(old(servicio.checadores), old(servicio.siguienteId), id, fecha, hora)
        && Mostrado()
      ensures personaSeleccionada.Some? && TodosAntesDe(old(servicio.checadores), personaSeleccionada.value.id, fecha, hora) ==>
        var id := personaSeleccionada.value.id;
        ultimoChecador == Some(NuevoChecador(old(servicio.checadores), old(servicio.siguienteId), id, fecha, hora))
        && proximoTipoAccion == Some(Opuesto(TipoAccionSiguiente(old(servicio.checadores), id)))
    {
      if personaSeleccionada.None? {
        return;
      }
      var id := personaSeleccionada.value.id;
      ghost var antes, siguiente := servicio.checadores, servicio.siguienteId;
      var nuevo := servicio.RegistrarChecador(id, fecha, hora);
      ActualizarInformacionPersona();
      if TodosAntesDe(antes, id, fecha, hora) {
        AlternanciaTrasRegistro(antes, siguiente, id, fecha, hora);
      }
    }

    /** NombreCompleto: the name and surname run together; with nothing
        selected the concatenation of two nulls, "". */
    function NombreCompleto(): (s: string)
      reads this
      ensures personaSeleccionada.None? ==> s == ""
      ensures personaSeleccionada.Some? ==>
        s == personaSeleccionada.value.nombre + personaSeleccionada.value.apellido
    {
      if personaSeleccionada.None? then ""
      else personaSeleccionada.value.nombre + personaSeleccionada.value.apellido
    }

    /** Matricula: the selected person's, or "". */
    function Matricula(): (s: string)
      reads this
      ensures personaSeleccionada.None? ==> s == ""
      ensures personaSeleccionada.Some? ==> s == personaSeleccionada.value.matricula
    {
      if personaSeleccionada.None? then "" else personaSeleccionada.value.matricula
    }

    /** HoraUltimoChecador: "HH:mm:ss" of the last event, or "". */
    function HoraUltimoChecador(): (s: string)
      reads this
      ensures ultimoChecador.None? ==> s == ""
      ensures ultimoChecador.Some? ==> (|s| == 8 && s[..5] == FormatoHHmm(ultimoChecador.value.hora)
        && ValorDigito(s[6]) * 10 + ValorDigito(s[7]) == SegundosDe(ultimoChecador.value.hora))
    {
      if ultimoChecador.None? then "" else FormatoHHmmss(ultimoChecador.value.hora)
    }

    /** TipoAccionAnterior: the kind of the last event, or "Sin registros". */
    function TipoAccionAnterior(): (s: string)
      reads this
      ensures ultimoChecador.None? ==> s == SinRegistrosTexto
      ensures ultimoChecador.Some? ==> s == ultimoChecador.value.tipoAccion
    {
      if ultimoChecador.None? then SinRegistrosTexto else ultimoChecador.value.tipoAccion
    }
  }

  /** On a screen in step with the ledger, "Sin registros" shows whenever
      nothing or a person without events is selected, and otherwise the
      kind of that person's latest event; the next kind shown then follows
      the Entrada/Salida rule on the previous kind shown. */
  lemma PantallaCoherente(vm: ChecadorViewModel)
    requires vm.Mostrado()
    ensures vm.personaSeleccionada.None? ==> vm.TipoAccionAnterior() == SinRegistrosTexto && vm.NombreCompleto() == ""
    ensures vm.personaSeleccionada.Some? && SinRegistros(vm.servicio.checadores, vm.personaSeleccionada.value.id) ==>
      vm.TipoAccionAnterior() == SinRegistrosTexto && vm.proximoTipoAccion == Some(Entrada)
    ensures vm.personaSeleccionada.Some? && vm.ultimoChecador.Some? ==>
      vm.proximoTipoAccion == Some(if vm.TipoAccionAnterior() == Salida then Entrada else Salida)
  {
  }
}
