/** The report screen's state (ViewModels/ReportesViewModel.cs): the
    filters, the loading flag, the message line, the rows and the
    statistics, updated in place by its commands. The store's events,
    joined with their persons, are passed to the command that reads them;
    the export path is passed in as well. */
module ReportesVista {
  import opened Comun
  import opened Reportes

  const NoHayDatos: string := "No hay datos para exportar. Genere un reporte primero."
  const Exportado: string := "Archivo exportado exitosamente: "

  class ReportesViewModel {
    var fechaInicio: Option<int>
    var fechaFin: Option<int>
    var tipoPersonaSeleccionado: string
    var isLoading: bool
    var mensajeError: string
    var reportes: seq<Reporte>
    var totalRegistros: int
    var personasUnicas: int
    var totalHoras: int
    var promedioHorasPorDia: Fraccion
    /** How many times the events were read from the store. */
    ghost var consultas: nat
    /** How many times the loading flag was raised. */
    ghost var cargas: nat

    /** The statistics describe the rows on display. */
    ghost predicate Coherente()
      reads this
    {
      totalRegistros == |reportes|
      && personasUnicas == |Matriculas(reportes)|
      && totalHoras == SumaHoras(reportes)
      && promedioHorasPorDia.den > 0
    }

    /** The initial state: the last thirty days up to today, every
        category, not loading, no message, no rows. */
    constructor (hoy: int)
      ensures fechaInicio == Some(hoy - 30) && fechaFin == Some(hoy)
      ensures tipoPersonaSeleccionado == Todos && !isLoading && mensajeError == ""
      ensures reportes == [] && totalRegistros == 0 && personasUnicas == 0 && totalHoras == 0
      ensures promedioHorasPorDia == Fraccion(0, 1)
      ensures consultas == 0 && cargas == 0
      ensures Coherente()
    {
      fechaInicio := Some(hoy - 30);
      fechaFin := Some(hoy);
      tipoPersonaSeleccionado := Todos;
      isLoading := false;
      mensajeError := "";
      reportes := [];
      totalRegistros := 0;
      personasUnicas := 0;
      totalHoras := 0;
      promedioHorasPorDia := Fraccion(0, 1);
      consultas := 0;
      cargas := 0;
    }

    /** The bound filter properties, as the view sets them. */
    method EstablecerFiltros(inicio: Option<int>, fin: Option<int>, tipo: string)
      modifies this
      ensures fechaInicio == inicio && fechaFin == fin && tipoPersonaSeleccionado == tipo
      ensures reportes == old(reportes) && mensajeError == old(mensajeError) && isLoading == old(isLoading)
      ensures totalRegistros == old(totalRegistros) && personasUnicas == old(personasUnicas)
      ensures totalHoras == old(totalHoras) && promedioHorasPorDia == old(promedioHorasPorDia)
      ensures consultas == old(consultas) && cargas == old(cargas)
    {
      fechaInicio, fechaFin, tipoPersonaSeleccionado := inicio, fin, tipo;
    }

    /** ValidarFiltros: true when both dates are set and ordered; otherwise
        posts the reason to the message line. */
    method ValidarFiltros() returns (ok: bool)
      modifies this
      ensures ok <==> Reportes.ValidarFiltros(fechaInicio, fechaFin).None?
      ensures !ok ==> mensajeError == Reportes.ValidarFiltros(fechaInicio, fechaFin).value
      ensures ok ==> mensajeError == old(mensajeError)
      ensures fechaInicio == old(fechaInicio) && fechaFin == old(fechaFin)
      ensures tipoPersonaSeleccionado == old(tipoPersonaSeleccionado) && isLoading == old(isLoading)
      ensures reportes == old(reportes)
      ensures totalRegistros == old(totalRegistros) && personasUnicas == old(personasUnicas)
      ensures totalHoras == old(totalHoras) && promedioHorasPorDia == old(promedioHorasPorDia)
      ensures consultas == old(consultas) && cargas == old(cargas)
    {
      var error := Reportes.ValidarFiltros(fechaInicio, fechaFin);
      if error.Some? {
        mensajeError := error.value;
        return false;
      }
      return true;
    }

    /** CalcularEstadisticas: the totals of the rows on display; the
        average is recomputed only while both dates are set. */
    method CalcularEstadisticas()
      modifies this
      ensures totalRegistros == |reportes|
      ensures personasUnicas == |Matriculas(reportes)| && personasUnicas <= totalRegistros
      ensures totalHoras == SumaHoras(reportes)
      ensures fechaInicio.Some? && fechaFin.Some? ==>
        promedioHorasPorDia == Promedio(totalHoras, Dias(fechaInicio.value, fechaFin.value))
      ensures fechaInicio.None? || fechaFin.None? ==> promedioHorasPorDia == old(promedioHorasPorDia)
      ensures old(promedioHorasPorDia).den > 0 ==> Coherente()
      ensures fechaInicio == old(fechaInicio) && fechaFin == old(fechaFin)
      ensures tipoPersonaSeleccionado == old(tipoPersonaSeleccionado) && isLoading == old(isLoading)
      ensures reportes == old(reportes) && mensajeError == old(mensajeError)
      ensures consultas == old(consultas) && cargas == old(cargas)
    {
      MatriculasAcotadas(reportes);
      totalRegistros := |reportes|;
      personasUnicas := |Matriculas(reportes)|;
      totalHoras := SumaHoras(reportes);
      if fechaInicio.Some? && fechaFin.Some? {
        promedioHorasPorDia := Promedio(totalHoras, Dias(fechaInicio.value, fechaFin.value));
      }
    }

    /** GenerarReporte: clears the message; when the filters are invalid it
        stops there, with the reason shown, before raising the loading flag
        or reading the store. Otherwise it loads the report. */
    method GenerarReporte(tabla: seq<Registro>)
      requires Coherente()
      modifies this
      ensures Coherente()
      ensures fechaInicio == old(fechaInicio) && fechaFin == old(fechaFin)
      ensures tipoPersonaSeleccionado == old(tipoPersonaSeleccionado)
      ensures Reportes.ValidarFiltros(fechaInicio, fechaFin).Some? ==>
        mensajeError == Reportes.ValidarFiltros(fechaInicio, fechaFin).value
        && reportes == old(reportes) && isLoading == old(isLoading)
        && consultas == old(consultas) && cargas == old(cargas)
        && totalRegistros == old(totalRegistros) && personasUnicas == old(personasUnicas)
        && totalHoras == old(totalHoras) && promedioHorasPorDia == old(promedioHorasPorDia)
      ensures Reportes.ValidarFiltros(fechaInicio, fechaFin).None? ==>
        reportes == Filas(GruposDelReporte(tabla, fechaInicio.value, fechaFin.value, tipoPersonaSeleccionado))
        && mensajeError == "" && !isLoading
        && consultas == old(consultas) + 1 && cargas == old(cargas) + 1
        && promedioHorasPorDia == Promedio(totalHoras, Dias(fechaInicio.value, fechaFin.value))
    {
      mensajeError := "";
      var ok := ValidarFiltros();
      if !ok {
        return;
      }
      CargarReporte(tabla);
    }

    /** The body of GenerarReporte's try block: raises the loading flag,
        reads the events once, replaces the rows by the report of the
        filtered groups, recomputes the statistics and lowers the flag. */
    method CargarReporte(tabla: seq<Registro>)
      requires Reportes.ValidarFiltros(fechaInicio, fechaFin).None?
      modifies this
      ensures Coherente()
      ensures fechaInicio == old(fechaInicio) && fechaFin == old(fechaFin)
      ensures tipoPersonaSeleccionado == old(tipoPersonaSeleccionado) && mensajeError == old(mensajeError)
      ensures reportes == Filas(GruposDelReporte(tabla, fechaInicio.value, fechaFin.value, tipoPersonaSeleccionado))
      ensures !isLoading && consultas == old(consultas) + 1 && cargas == old(cargas) + 1
      ensures promedioHorasPorDia == Promedio(totalHoras, Dias(fechaInicio.value, fechaFin.value))
    {
      isLoading := true;
      cargas := cargas + 1;
      var inicio, fin, tipo := fechaInicio.value, fechaFin.value, tipoPersonaSeleccionado;
      consultas := consultas + 1;
      var datos := ObtenerDatosReporte(tabla, inicio, fin, tipo);
      Rellenar(datos);
      CalcularEstadisticas();
      isLoading := false;
    }

    /** `Reportes.Clear()` followed by one `Add` per item. */
    method Rellenar(datos: seq<Reporte>)
      modifies this
      ensures reportes == datos
      ensures fechaInicio == old(fechaInicio) && fechaFin == old(fechaFin)
      ensures tipoPersonaSeleccionado == old(tipoPersonaSeleccionado) && isLoading == old(isLoading)
      ensures mensajeError == old(mensajeError)
      ensures totalRegistros == old(totalRegistros) && personasUnicas == old(personasUnicas)
      ensures totalHoras == old(totalHoras) && promedioHorasPorDia == old(promedioHorasPorDia)
      ensures consultas == old(consultas) && cargas == old(cargas)
    {
      reportes := [];
      var i := 0;
      while i < |datos|
        invariant 0 <= i <= |datos|
        invariant reportes == datos[..i]
        invariant fechaInicio == old(fechaInicio) && fechaFin == old(fechaFin)
        invariant tipoPersonaSeleccionado == old(tipoPersonaSeleccionado) && isLoading == old(isLoading)
        invariant mensajeError == old(mensajeError)
        invariant totalRegistros == old(totalRegistros) && personasUnicas == old(personasUnicas)
        invariant totalHoras == old(totalHoras) && promedioHorasPorDia == old(promedioHorasPorDia)
        invariant consultas == old(consultas) && cargas == old(cargas)
      {
        reportes := reportes + [datos[i]];
        i := i + 1;
      }
    }

    /** The command: ignored while a report is loading; otherwise it is
        GenerarReporte. */
    method GenerarReporteWrapper(tabla: seq<Registro>)
      requires Coherente()
      modifies this
      ensures Coherente()
      ensures old(isLoading) ==> unchanged(this)
      ensures fechaInicio == old(fechaInicio) && fechaFin == old(fechaFin)
      ensures tipoPersonaSeleccionado == old(tipoPersonaSeleccionado)
      ensures !old(isLoading) && Reportes.ValidarFiltros(fechaInicio, fechaFin).Some? ==>
        mensajeError == Reportes.ValidarFiltros(fechaInicio, fechaFin).value
        && reportes == old(reportes) && !isLoading
        && consultas == old(consultas) && cargas == old(cargas)
        && totalRegistros == old(totalRegistros) && personasUnicas == old(personasUnicas)
        && totalHoras == old(totalHoras) && promedioHorasPorDia == old(promedioHorasPorDia)
      ensures !old(isLoading) && Reportes.ValidarFiltros(fechaInicio, fechaFin).None? ==>
        reportes == Filas(GruposDelReporte(tabla, fechaInicio.value, fechaFin.value, tipoPersonaSeleccionado))
        && mensajeError == "" && !isLoading
        && consultas == old(consultas) + 1 && cargas == old(cargas) + 1
        && promedioHorasPorDia == Promedio(totalHoras, Dias(fechaInicio.value, fechaFin.value))
    {
      if isLoading {
        return;
      }
      GenerarReporte(tabla);
    }

    /** ExportarExcel: with no rows the message asks for a report first and
        nothing is written; otherwise the sheet holds the rows and the
        current statistics, and the message names the file. */
    method ExportarExcel(ruta: string) returns (hoja: Option<seq<seq<Celda>>>)
      modifies this
      ensures reportes == [] ==> hoja.None? && mensajeError == NoHayDatos
      ensures reportes != [] ==> hoja.Some? && mensajeError == Exportado + ruta
      ensures hoja.Some? ==>
        var h := hoja.value;
        var resumen := Resumen(totalRegistros, personasUnicas, totalHoras, promedioHorasPorDia);
        |h| == FilaEstadisticas(|reportes|) + 4 && h[0] == Titulos
        && (forall i :: 0 <= i < |reportes| ==> h[i + 1] == CeldasDe(reportes[i]))
        && h[FilaEstadisticas(|reportes|) - 1..] == BloqueResumen(resumen)
      ensures fechaInicio == old(fechaInicio) && fechaFin == old(fechaFin)
      ensures tipoPersonaSeleccionado == old(tipoPersonaSeleccionado) && isLoading == old(isLoading)
      ensures reportes == old(reportes)
      ensures totalRegistros == old(totalRegistros) && personasUnicas == old(personasUnicas)
      ensures totalHoras == old(totalHoras) && promedioHorasPorDia == old(promedioHorasPorDia)
      ensures consultas == old(consultas) && cargas == old(cargas)
    {
      if |reportes| == 0 {
        mensajeError := NoHayDatos;
        return None;
      }
      var resumen := Resumen(totalRegistros, personasUnicas, totalHoras, promedioHorasPorDia);
      var h := ExportarHoja(reportes, resumen);
      mensajeError := Exportado + ruta;
      return Some(h);
    }

    /** The export command: ignored while a report is loading; otherwise it
        is ExportarExcel. */
    method ExportarExcelWrapper(ruta: string) returns (hoja: Option<seq<seq<Celda>>>)
      modifies this
      ensures old(isLoading) ==> hoja.None? && unchanged(this)
      ensures !old(isLoading) && reportes == [] ==> hoja.None? && mensajeError == NoHayDatos
      ensures !old(isLoading) && reportes != [] ==>
        hoja.Some? && mensajeError == Exportado + ruta
        && var h := hoja.value;
        var resumen := Resumen(totalRegistros, personasUnicas, totalHoras, promedioHorasPorDia);
        |h| == FilaEstadisticas(|reportes|) + 4 && h[0] == Titulos
        && (forall i :: 0 <= i < |reportes| ==> h[i + 1] == CeldasDe(reportes[i]))
        && h[FilaEstadisticas(|reportes|) - 1..] == BloqueResumen(resumen)
      ensures fechaInicio == old(fechaInicio) && fechaFin == old(fechaFin)
      ensures tipoPersonaSeleccionado == old(tipoPersonaSeleccionado) && isLoading == old(isLoading)
      ensures reportes == old(reportes)
      ensures totalRegistros == old(totalRegistros) && personasUnicas == old(personasUnicas)
      ensures totalHoras == old(totalHoras) && promedioHorasPorDia == old(promedioHorasPorDia)
      ensures consultas == old(consultas) && cargas == old(cargas)
    {
      if isLoading {
        return None;
      }
      hoja := ExportarExcel(ruta);
    }

    /** Limpiar: dates unset, every category, no rows, no message and all
        statistics zero. */
    method Limpiar()
      modifies this
      ensures fechaInicio.None? && fechaFin.None? && tipoPersonaSeleccionado == Todos
      ensures reportes == [] && mensajeError == ""
      ensures totalRegistros == 0 && personasUnicas == 0 && totalHoras == 0
      ensures promedioHorasPorDia == Fraccion(0, 1)
      ensures isLoading == old(isLoading) && consultas == old(consultas) && cargas == old(cargas)
      ensures Coherente()
    {
      fechaInicio := None;
      fechaFin := None;
      tipoPersonaSeleccionado := Todos;
      reportes := [];
      mensajeError := "";
      totalRegistros := 0;
      personasUnicas := 0;
      totalHoras := 0;
      promedioHorasPorDia := Fraccion(0, 1);
    }
  }
}
