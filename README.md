# ChecadorComunicacion attendance core, modelled in Dafny

ChecadorComunicacion is a desktop attendance app ("checador"). A person is picked on the check-in
screen. Each check-in adds an event to a ledger, and its kind follows one rule: "Entrada" when the
person has no event yet or their latest event is a "Salida", otherwise "Salida". The other screens do
three things:

- keep a directory of people, with their photo or their fingerprint;
- build a daily attendance report: one row per person and day, with the first entrance, the first
  exit and the time worked;
- export that report to a spreadsheet.

The Dafny project models these parts:

| file | module | models |
|---|---|---|
| `comun.dfy` | `Comun` | null as `Option`, bytes, the .NET whitespace and `Trim` rules, ordinal string order, the `HH:mm` and `HH:mm:ss` formats, `SetProperty` |
| `listas.dfy` | `Listas` | the LINQ operations used (`Where`, `FirstOrDefault`, `OrderBy`) |
| `rutas.dfy` | `Rutas` | `Path.Combine` and `Helpers/ImagePathHelper.cs` |
| `persona.dfy` | `Personas` | `Models/Persona.cs` |
| `ledger.dfy` | `Ledger` | `Services/ChecadorService.cs`, as a class over an in-memory table |
| `reportes.dfy` | `Reportes` | the pure part of `ViewModels/ReportesViewModel.cs`: filters, grouping, rows, worked time, statistics, sheet layout |
| `reportes_vm.dfy` | `ReportesVista` | the report screen's state and commands |
| `checador_vm.dfy` | `ChecadorVista` | `ViewModels/ChecadorViewModel.cs` |
| `personas_vm.dfy` | `PersonasVista` | `ViewModels/PersonasViewModel.cs` |
| `persona_vm.dfy` | `PersonaVista` | `ViewModels/PersonaViewModel.cs` |
| `dialogos.dfy` | `Dialogos` | `ViewModels/DialogViewModel.cs` and `ViewModels/ConfirmDialogViewModel.cs` |

Representation choices:

- **Dates and times.** A date (`Fecha`) is an integer day number. A time of day (`Hora`) is an
  integer count of 100 ns ticks in [0, 864000000000), the type `HoraDelDia`.
- **Inputs instead of the environment.** These arrive as parameters:
  - the clock reading of a check-in;
  - the set of files that exist;
  - the draws of the random source;
  - the Base64 encoder;
  - the listing the person store returns.
- **Durations.** Worked time stays in ticks, and the daily average is an exact fraction.
- **Classes and functions.** Screens and the ledger are classes whose methods update their fields.
  Queries, grouping and formatting are functions. Each method is proved against those functions.

## Model

| member | source | states |
|---|---|---|
| Comun.ComoByte | ChecadorComunicacion/ViewModels/PersonaViewModel.cs:292-297 | the `(byte)` cast keeps the value modulo 256, and a value below 256 unchanged |
| Comun.QuitarInicio | ChecadorComunicacion/ViewModels/PersonasViewModel.cs:333-336 | TrimStart drops exactly a blank prefix, and the result does not start with whitespace |
| Comun.QuitarFinal | ChecadorComunicacion/ViewModels/PersonasViewModel.cs:333-336 | TrimEnd drops exactly a blank suffix, and the result does not end with whitespace |
| Comun.RecortarEsSegmento | ChecadorComunicacion/ViewModels/PersonasViewModel.cs:333-336 | Trim keeps a contiguous slice between a blank prefix and a blank suffix; the slice begins and ends with a non-blank character |
| Comun.RecortarVacio | ChecadorComunicacion/ViewModels/PersonasViewModel.cs:241-259 | Trim yields "" exactly when the text is blank (IsNullOrWhiteSpace on a non-null text) |
| Comun.RecortarIdempotente | ChecadorComunicacion/ViewModels/PersonasViewModel.cs:333-336 | trimming twice equals trimming once |
| Comun.TextoMenorIgualTotal | ChecadorComunicacion/ViewModels/ReportesViewModel.cs:335 | the name order used to sort groups is total |
| Comun.TextoMenorIgualTransitivo | ChecadorComunicacion/ViewModels/ReportesViewModel.cs:335 | the name order is transitive |
| Comun.FormatoHHmm | ChecadorComunicacion/ViewModels/ReportesViewModel.cs:355-356 | `ToString("HH:mm")` gives five characters with ':' in the middle |
| Comun.FormatoHHmmLegible | ChecadorComunicacion/ViewModels/ReportesViewModel.cs:355-356 | reading "HH:mm" back gives the hour (0..23) and the minute (0..59) of the time |
| Comun.FormatoHHmmss | ChecadorComunicacion/ViewModels/ChecadorViewModel.cs:72 | `ToString("HH:mm:ss")` is eight characters, extends the "HH:mm" text of the same time, and its last two digits read back as the seconds (below 60) of that time |
| Comun.Asignar | ChecadorComunicacion/ViewModels/ChecadorViewModel.cs:134-141 | SetProperty stores the new value and reports a change exactly when it differs from the old one (the same helper is at PersonasViewModel.cs:163-169) |
| Comun.AsignarDosVeces | ChecadorComunicacion/ViewModels/PersonasViewModel.cs:163-169 | assigning the value already held reports no change and keeps the value |
| Listas.Filtrar | ChecadorComunicacion/Services/ChecadorService.cs:25 | `Where` keeps exactly the satisfying elements, each with its multiplicity, and nothing else (their order is not stated) |
| Listas.Primero | ChecadorComunicacion/ViewModels/ReportesViewModel.cs:344-345 | `FirstOrDefault(p)` is None exactly when no element satisfies p; otherwise it is the element at the first satisfying index |
| Listas.OrdenarEstable | ChecadorComunicacion/Services/ChecadorService.cs:26-27 | `OrderBy(...).ThenBy(...)` returns a sorted permutation of its input |
| Listas.InsertarEstable | ChecadorComunicacion/ViewModels/ReportesViewModel.cs:334-335 | inserting into a sorted list keeps it sorted and adds exactly that element |
| Rutas.Combinar | ChecadorComunicacion/Helpers/ImagePathHelper.cs:24 | Path.Combine returns a rooted second part as it is; otherwise the result starts with the first part |
| Rutas.CombinarInyectiva | ChecadorComunicacion/Helpers/ImagePathHelper.cs:24 | with the same first part, Combine of two non-rooted second parts is equal only when the parts are equal |
| Rutas.RutaImagenPredeterminada | ChecadorComunicacion/Helpers/ImagePathHelper.cs:22 | GetImagePath without an extension uses ".jpg" |
| Rutas.RutaImagenDePersona | ChecadorComunicacion/Helpers/ImagePathHelper.cs:27-30 | GetImagePathForPersona is GetImagePath of the person's matricula: the base folder, a separator, then matricula + extension |
| Rutas.RutaBaseSinSeparadorFinal | ChecadorComunicacion/Helpers/ImagePathHelper.cs:10-12 | the base folder Desktop/ChecadorComunicacion/FotosPersonas is non-empty and does not end in a separator |
| Rutas.RutasDistintas | ChecadorComunicacion/Helpers/ImagePathHelper.cs:10-24 | for one extension, distinct non-rooted matriculas give distinct photo paths |
| Personas.RutaImagenPorDefectoEs | ChecadorComunicacion/Models/Persona.cs:16 | the default image is Path.Combine("Assets", "default.png") = "Assets/default.png" |
| Personas.RutaFoto | ChecadorComunicacion/Models/Persona.cs:18-29 | the getter returns the stored path when it is non-empty; otherwise the default image if that file exists; otherwise null |
| Personas.RutaFotoLeeLoGuardado | ChecadorComunicacion/Models/Persona.cs:18-30 | the setter stores its value verbatim; a non-empty value reads back unchanged, whatever files exist, and null and "" read the same |
| Personas.ImagenPersonalizadaIndependiente | ChecadorComunicacion/Models/Persona.cs:33 | a custom image depends only on the stored value; without one the getter gives the default image or null |
| Personas.ImagenDisponibleExiste | ChecadorComunicacion/Models/Persona.cs:35 | an available image means the getter's path is non-null and exists; without a custom image it is "Assets/default.png" |
| Ledger.DePersona | ChecadorComunicacion/Services/ChecadorService.cs:25 | the filter keeps exactly the person's events, with their multiplicities |
| Ledger.NoPosteriorEsPreorden | ChecadorComunicacion/Services/ChecadorService.cs:26-27 | ordering by (Fecha, Hora) is a total preorder |
| Ledger.Ordenar | ChecadorComunicacion/Services/ChecadorService.cs:26-27 | the events sorted ascending by (Fecha, Hora), as a permutation |
| Ledger.ChecadoresPorPersonaCorrecto | ChecadorComunicacion/Services/ChecadorService.cs:21-30 | ObtenerChecadoresPorPersona holds exactly the person's events, each as often as in the table, in ascending (Fecha, Hora) order |
| Ledger.Ultimo | ChecadorComunicacion/Services/ChecadorService.cs:32-41 | ObtenerUltimoChecadorPorPersona is null exactly when the person has no event; otherwise it is one of their events, not earlier than any of them |
| Ledger.TipoAccionSiguiente | ChecadorComunicacion/Services/ChecadorService.cs:72-84 | DeterminarTipoAccion always answers "Entrada" or "Salida" |
| Ledger.TipoAccionSiguienteCasos | ChecadorComunicacion/Services/ChecadorService.cs:72-84 | when an event is strictly latest it is the one returned, and the next kind is "Entrada" after a "Salida" and "Salida" after any other kind, unexpected strings included |
| Ledger.TipoAccionSiguienteSinRegistros | ChecadorComunicacion/Services/ChecadorService.cs:77-80 | a person without events gets "Entrada" |
| Ledger.AlternanciaTrasRegistro | ChecadorComunicacion/Services/ChecadorService.cs:72-104 | when the clock reading is later than all the person's events, the new event becomes their latest and the next kind is the opposite of the one before |
| Ledger.RegistroNoAfectaOtros | ChecadorComunicacion/Services/ChecadorService.cs:91-104 | registering for one person changes neither the latest event nor the next kind of any other person |
| Ledger.RegistroEsElUltimoDeLaLista | ChecadorComunicacion/Services/ChecadorService.cs:91-104 | after such a registration (RegistrarChecador) the person's ordered list ends with the new event |
| Ledger.RegistrarVarios | ChecadorComunicacion/Services/ChecadorService.cs:91-104 | n successive registrations add exactly n events |
| Ledger.RegistrarVariosAnexa | ChecadorComunicacion/Services/ChecadorService.cs:91-104 | successive registrations only append: earlier events are unchanged, and the new ones carry consecutive ids, the person and the given instants |
| Ledger.PreviosAntesDelUltimo | ChecadorComunicacion/Services/ChecadorService.cs:91-104 | with increasing instants, every earlier event of the person precedes the last instant |
| Ledger.TipoAlternoAlterna | ChecadorComunicacion/Services/ChecadorService.cs:72-84 | the alternating pattern flips at every step |
| Ledger.RegistrarVariosPrefijo | ChecadorComunicacion/Services/ChecadorService.cs:91-104 | the first m registrations of a run are the run of the first m instants |
| Ledger.AlternanciaDesdeVacio | ChecadorComunicacion/Services/ChecadorService.cs:72-104 | from no events and with increasing instants, after n registrations the next kind is "Entrada" for even n and "Salida" for odd n |
| Ledger.TiposAlternos | ChecadorComunicacion/Services/ChecadorService.cs:72-104 | from no events and with increasing instants, successive registrations are Entrada, Salida, Entrada, ... |
| Ledger.Reemplazado | ChecadorComunicacion/Services/ChecadorService.cs:49-55 | an update replaces the rows with the same Id and keeps every other row, in place |
| Ledger.IndiceDe | ChecadorComunicacion/Services/ChecadorService.cs:59-60 | the lookup by Id finds the first row with that Id, or none exactly when there is none |
| Ledger.EliminadoCorrecto | ChecadorComunicacion/Services/ChecadorService.cs:57-65 | a missing Id leaves the table unchanged; otherwise exactly one row with that Id is removed and the others keep their order; with distinct Ids none is left |
| Ledger.ReemplazadoCorrecto | ChecadorComunicacion/Services/ChecadorService.cs:49-55 | updating a missing Id changes nothing; otherwise the new row is present; distinct Ids stay distinct |
| Ledger.ChecadorService.constructor | ChecadorComunicacion/Services/ChecadorService.cs:11 | the table starts empty |
| Ledger.ChecadorService.AgregarChecador | ChecadorComunicacion/Services/ChecadorService.cs:43-47 | appends one row under a fresh Id and changes nothing else |
| Ledger.ChecadorService.ActualizarChecador | ChecadorComunicacion/Services/ChecadorService.cs:49-55 | the table becomes the replacement of the row with the same Id |
| Ledger.ChecadorService.EliminarChecador | ChecadorComunicacion/Services/ChecadorService.cs:57-65 | removes the row with the Id, if any; afterwards no row has that Id |
| Ledger.ChecadorService.RegistrarChecador | ChecadorComunicacion/Services/ChecadorService.cs:91-110 | appends exactly one event: the kind DeterminarTipoAccion gave before the append, the date and time of one clock reading, and the person; it returns that event |
| Reportes.ValidarFiltros | ChecadorComunicacion/ViewModels/ReportesViewModel.cs:287-307 | fails with "Debe seleccionar fechas de inicio y fin" when a date is missing, and with "La fecha de inicio no puede ser mayor a la fecha fin" when start > end; start == end passes |
| Reportes.RangoFecha | ChecadorComunicacion/ViewModels/ReportesViewModel.cs:319 | the date-range query keeps exactly the events whose day lies in [start, end] |
| Reportes.FiltrarTipo | ChecadorComunicacion/ViewModels/ReportesViewModel.cs:322-327 | "Todos" keeps every event; any other value keeps exactly the events whose person has that category |
| Reportes.FiltrarTipoConserva | ChecadorComunicacion/ViewModels/ReportesViewModel.cs:322-327 | an event survives the category filter exactly when it was there and the filter is "Todos" or matches its person |
| Reportes.DeClave | ChecadorComunicacion/ViewModels/ReportesViewModel.cs:333 | a group holds exactly the events with its (PersonaId, Fecha) key |
| Reportes.Claves | ChecadorComunicacion/ViewModels/ReportesViewModel.cs:333 | the group keys are distinct and are exactly the keys present |
| Reportes.AgruparCorrecto | ChecadorComunicacion/ViewModels/ReportesViewModel.cs:333 | GroupBy gives one non-empty group per distinct key present, each holding exactly the events with that key |
| Reportes.GrupoNoPosteriorEsPreorden | ChecadorComunicacion/ViewModels/ReportesViewModel.cs:334-335 | ordering groups by day, then by the first person's name, is a total preorder |
| Reportes.GruposOrdenados | ChecadorComunicacion/ViewModels/ReportesViewModel.cs:332-335 | the groups sorted by day and then by name, as a permutation of the groups |
| Reportes.EnAgrupar | ChecadorComunicacion/ViewModels/ReportesViewModel.cs:333 | any group GroupBy produces is non-empty and holds exactly the events of its key |
| Reportes.GruposOrdenadosContenido | ChecadorComunicacion/ViewModels/ReportesViewModel.cs:332-335 | sorting keeps every group's contents |
| Reportes.GruposOrdenadosClavesDistintas | ChecadorComunicacion/ViewModels/ReportesViewModel.cs:332-335 | after sorting, no key occurs twice |
| Reportes.GrupoDeClave | ChecadorComunicacion/ViewModels/ReportesViewModel.cs:332-335 | every key present has a group after sorting |
| Reportes.GruposOrdenadosCubren | ChecadorComunicacion/ViewModels/ReportesViewModel.cs:332-335 | the sorted groups' keys are exactly the keys present |
| Reportes.GruposOrdenadosCorrecto | ChecadorComunicacion/ViewModels/ReportesViewModel.cs:332-339 | exactly one group per distinct (PersonaId, Fecha), each with all its events, in ascending day order |
| Reportes.PorHora | ChecadorComunicacion/ViewModels/ReportesViewModel.cs:342 | a group's events sorted by Hora, as a permutation |
| Reportes.PrimeroDeTipoCorrecto | ChecadorComunicacion/ViewModels/ReportesViewModel.cs:342-345 | the first event of a kind after sorting by Hora is none exactly when the group has no such event; otherwise it is of that kind and no such event is earlier |
| Reportes.SumarAHora | ChecadorComunicacion/ViewModels/ReportesViewModel.cs:375 | TimeOnly.Add wraps modulo one day |
| Reportes.HorasTrabajadas | ChecadorComunicacion/ViewModels/ReportesViewModel.cs:365-380 | as written: 0 when either event is missing; otherwise exit minus entrance, which is negative when the exit is earlier |
| Reportes.HorasTrabajadasNegativas | ChecadorComunicacion/ViewModels/ReportesViewModel.cs:373-378 | an entrance at 22:00 and an exit at 06:00 give minus sixteen hours |
| Reportes.HorasTurno | ChecadorComunicacion/ViewModels/ReportesViewModel.cs:365-380 | as evidently intended: 0 when either is missing; otherwise the duration in [0, 24 h) that brings the entrance time to the exit time, equal to the as-written value whenever the exit is not earlier |
| Reportes.HorasTurnoNocturno | ChecadorComunicacion/ViewModels/ReportesViewModel.cs:373-378 | corrected, the 22:00 to 06:00 shift gives eight hours |
| Reportes.FilaCorrecta | ChecadorComunicacion/ViewModels/ReportesViewModel.cs:341-358 | a row carries the group's day and first person, with Nombre = Nombre + " " + Apellido; HoraEntrada (HoraSalida) is "Sin registro" exactly when the group has no Entrada (Salida), otherwise the HH:mm of the earliest one; worked time is 0 when either is missing |
| Reportes.FilaDePrimeros | ChecadorComunicacion/ViewModels/ReportesViewModel.cs:342-357 | the row's entrance and exit texts and its worked time are computed from the earliest Entrada and the earliest Salida of the group |
| Reportes.HorasDeFila | ChecadorComunicacion/ViewModels/ReportesViewModel.cs:342-357 | when the group has an Entrada and a Salida, the worked time of its row is the hour of the earliest Salida minus that of the earliest Entrada (the two the row shows), as `CalcularHorasTrabajadas` computes it, negative for an overnight pair |
| Reportes.HorasDeFilaAcotadas | ChecadorComunicacion/ViewModels/ReportesViewModel.cs:365-380 | a row's worked time lies strictly within one day either way |
| Reportes.GruposDelReporte | ChecadorComunicacion/ViewModels/ReportesViewModel.cs:319-335 | the groups of the filtered events are all non-empty |
| Reportes.FilasDelReporte | ChecadorComunicacion/ViewModels/ReportesViewModel.cs:309-363 | the report has one row per distinct (PersonaId, Fecha) among the filtered events, in ascending day order, every day within [start, end] |
| Reportes.FilasDeGrupos | ChecadorComunicacion/ViewModels/ReportesViewModel.cs:329-359 | the loop adds the rows of the groups one by one, in order, each with the as-written `CalcularHorasTrabajadas` duration |
| Reportes.ObtenerDatosReporte | ChecadorComunicacion/ViewModels/ReportesViewModel.cs:309-363 | returns the rows of the sorted groups of the range- and category-filtered events, with worked time as written (negative for an overnight pair) |
| Reportes.Matriculas | ChecadorComunicacion/ViewModels/ReportesViewModel.cs:387 | the distinct matriculas are exactly those that occur in some row |
| Reportes.MatriculasAcotadas | ChecadorComunicacion/ViewModels/ReportesViewModel.cs:386-387 | PersonasUnicas never exceeds TotalRegistros, and it is at least 1 when there are rows |
| Reportes.SumaHorasAcotada | ChecadorComunicacion/ViewModels/ReportesViewModel.cs:388 | with each row's hours in [−c, c], the total lies in [−rows · c, rows · c]; rows are within one day either way (HorasDeFilaAcotadas) |
| Reportes.Promedio | ChecadorComunicacion/ViewModels/ReportesViewModel.cs:390-394 | the average is total / days when there is at least one day, and 0 otherwise |
| Reportes.CeldasDe | ChecadorComunicacion/ViewModels/ReportesViewModel.cs:452-458 | a report row fills seven cells |
| Reportes.BloqueResumen | ChecadorComunicacion/ViewModels/ReportesViewModel.cs:462-476 | the statistics block has five rows |
| Reportes.ExportarHoja | ChecadorComunicacion/ViewModels/ReportesViewModel.cs:432-476 | the sheet has the seven headers in row 1, report row i in sheet row i + 2, two empty rows, and the statistics block starting at row count + 4 |
| Reportes.CeldasDeLaHoja | ChecadorComunicacion/ViewModels/ReportesViewModel.cs:432-476 | cell by cell (1-based): the headers, every field of every row, and the labels and values of the statistics |
| ReportesVista.ReportesViewModel.constructor | ChecadorComunicacion/ViewModels/ReportesViewModel.cs:24-35 | starts with the last thirty days up to today, "Todos", not loading, no message, no rows, zero totals |
| ReportesVista.ReportesViewModel.EstablecerFiltros | ChecadorComunicacion/ViewModels/ReportesViewModel.cs:97-125 | the filter setters change the filters and nothing else |
| ReportesVista.ReportesViewModel.ValidarFiltros | ChecadorComunicacion/ViewModels/ReportesViewModel.cs:287-307 | passes exactly when the filters are valid; otherwise shows the reason; nothing else changes |
| ReportesVista.ReportesViewModel.CalcularEstadisticas | ChecadorComunicacion/ViewModels/ReportesViewModel.cs:382-398 | TotalRegistros = rows, PersonasUnicas = distinct matriculas (at most the rows), TotalHoras = sum; the average is recomputed only while both dates are set |
| ReportesVista.ReportesViewModel.GenerarReporte | ChecadorComunicacion/ViewModels/ReportesViewModel.cs:211-285 | with invalid filters it shows the reason and neither raises the loading flag nor reads the store; otherwise the rows become the report of the filters (as-written worked time), read once, with the statistics kept consistent and the flag lowered at the end |
| ReportesVista.ReportesViewModel.CargarReporte | ChecadorComunicacion/ViewModels/ReportesViewModel.cs:226-284 | raises the flag once, reads once, replaces the rows with the report (as-written worked time), recomputes the statistics and lowers the flag |
| ReportesVista.ReportesViewModel.Rellenar | ChecadorComunicacion/ViewModels/ReportesViewModel.cs:256-262 | Clear followed by one Add per item leaves exactly the new rows and touches nothing else |
| ReportesVista.ReportesViewModel.GenerarReporteWrapper | ChecadorComunicacion/ViewModels/ReportesViewModel.cs:53-70 | does nothing while loading; otherwise it is GenerarReporte: with invalid filters the reason is shown and rows and statistics are kept, with valid ones the rows become the report of the filters, the message is cleared and the flag is lowered |
| ReportesVista.ReportesViewModel.ExportarExcel | ChecadorComunicacion/ViewModels/ReportesViewModel.cs:400-496 | with no rows it shows "No hay datos para exportar. Genere un reporte primero." and writes nothing; otherwise it writes the sheet of the rows and current statistics and names the file; the state is otherwise unchanged |
| ReportesVista.ReportesViewModel.ExportarExcelWrapper | ChecadorComunicacion/ViewModels/ReportesViewModel.cs:72-85 | does nothing while loading; otherwise it is ExportarExcel: no rows give no sheet and the no-data message, rows give the sheet of the rows and statistics and the message naming the file; rows, filters and statistics are unchanged |
| ReportesVista.ReportesViewModel.Limpiar | ChecadorComunicacion/ViewModels/ReportesViewModel.cs:498-513 | dates null, filter "Todos", no rows, no message, all totals 0 |
| ChecadorVista.ChecadorViewModel.constructor | ChecadorComunicacion/ViewModels/ChecadorViewModel.cs:23-29 | nothing selected or shown |
| ChecadorVista.ChecadorViewModel.ActualizarInformacionPersona | ChecadorComunicacion/ViewModels/ChecadorViewModel.cs:93-112 | no selection shows no event and next kind ""; a selection shows that person's latest ledger event and DeterminarTipoAccion for them |
| ChecadorVista.ChecadorViewModel.SetPersonaSeleccionada | ChecadorComunicacion/ViewModels/ChecadorViewModel.cs:43-53 | the same person again changes nothing and does not refresh; a different value is stored and the screen refreshed |
| ChecadorVista.ChecadorViewModel.RegistrarChecadorAsync | ChecadorComunicacion/ViewModels/ChecadorViewModel.cs:114-132 | without a selection nothing changes; otherwise one event is appended and the screen refreshed; with a later clock reading the shown event is the new one and the next kind flips |
| ChecadorVista.ChecadorViewModel.NombreCompleto | ChecadorComunicacion/ViewModels/ChecadorViewModel.cs:67-68 | Nombre followed by Apellido with no separator; with nothing selected "", never the fallback text |
| ChecadorVista.ChecadorViewModel.Matricula | ChecadorComunicacion/ViewModels/ChecadorViewModel.cs:70 | the selected person's matricula, or "" |
| ChecadorVista.ChecadorViewModel.HoraUltimoChecador | ChecadorComunicacion/ViewModels/ChecadorViewModel.cs:72 | "" without an event; otherwise eight characters beginning with the HH:mm of the event and ending with its seconds |
| ChecadorVista.ChecadorViewModel.TipoAccionAnterior | ChecadorComunicacion/ViewModels/ChecadorViewModel.cs:73 | "Sin registros" without an event, otherwise the event's kind |
| ChecadorVista.PantallaCoherente | ChecadorComunicacion/ViewModels/ChecadorViewModel.cs:67-104 | on a refreshed screen, "Sin registros" shows for no selection or no events and the next kind is then "Entrada"; otherwise the next kind is the opposite of the previous kind shown |
| PersonasVista.Validacion | ChecadorComunicacion/ViewModels/PersonasViewModel.cs:239-266 | checks name, surname, matricula and category in that order and fails with the first null or blank field's message; passes exactly when all four are filled in |
| PersonasVista.NuevaPersona | ChecadorComunicacion/ViewModels/PersonasViewModel.cs:331-338 | the new person's stored photo path is "" (no custom image) |
| PersonasVista.Editada | ChecadorComunicacion/ViewModels/PersonasViewModel.cs:364-367 | editing overwrites only the four text fields, trimmed; Id and photo path are kept |
| PersonasVista.RecortarNoBlanco | ChecadorComunicacion/ViewModels/PersonasViewModel.cs:333-336 | a non-blank text trims to a non-empty text with no whitespace at either end |
| PersonasVista.ValidacionDaCamposLimpios | ChecadorComunicacion/ViewModels/PersonasViewModel.cs:239-266 | a form that validates hands the store non-empty, unpadded text fields, when adding and when editing |
| PersonasVista.PersonasViewModel.constructor | ChecadorComunicacion/ViewModels/PersonasViewModel.cs:36-47 | loads the listing and starts with a cleared form |
| PersonasVista.PersonasViewModel.CargarPersonas | ChecadorComunicacion/ViewModels/PersonasViewModel.cs:202-217 | the listing is cleared and refilled with exactly what the store returns, in order |
| PersonasVista.PersonasViewModel.SetPersonaSeleccionada | ChecadorComunicacion/ViewModels/PersonasViewModel.cs:68-92 | the same value changes nothing; a person copies its four fields and resolved photo path into the form and discards pending bytes; null clears the form |
| PersonasVista.PersonasViewModel.Limpiar | ChecadorComunicacion/ViewModels/PersonasViewModel.cs:219-230 | the three text fields "", category, photo, pending bytes and selection null; it terminates although the selection setter calls it back |
| PersonasVista.PersonasViewModel.LimpiarImagen | ChecadorComunicacion/ViewModels/PersonasViewModel.cs:232-237 | drops the photo path and pending bytes only |
| PersonasVista.PersonasViewModel.Validar | ChecadorComunicacion/ViewModels/PersonasViewModel.cs:239-266 | true exactly when the fields validate; otherwise the first failing field's message is shown |
| PersonasVista.PersonasViewModel.Agregar | ChecadorComunicacion/ViewModels/PersonasViewModel.cs:325-350 | an invalid form only shows the reason; a valid one asks the store to add the trimmed fields with photo path "" and the pending bytes, reloads, clears and reports success |
| PersonasVista.PersonasViewModel.Actualizar | ChecadorComunicacion/ViewModels/PersonasViewModel.cs:352-379 | without a selection it reports "Seleccione una persona para editar" and neither validates nor writes; an invalid form only shows the reason; otherwise the edited selection is written, the listing reloaded and the form cleared |
| PersonasVista.PersonasViewModel.Eliminar | ChecadorComunicacion/ViewModels/PersonasViewModel.cs:381-400 | without a selection it reports "Seleccione una persona para eliminar" and removes nothing; otherwise it asks the store to remove the selection, reloads and clears |
| PersonasVista.PersonasViewModel.TieneFoto | ChecadorComunicacion/ViewModels/PersonasViewModel.cs:148 | true exactly when the photo path is non-null and non-empty |
| PersonasVista.PersonasViewModel.FuenteVistaPrevia | ChecadorComunicacion/ViewModels/PersonasViewModel.cs:178-188 | the preview shows the form's photo if set and existing, else the default image if it exists, else nothing; what it shows exists |
| PersonasVista.VistaPreviaTrasLimpiarOSeleccionar | ChecadorComunicacion/ViewModels/PersonasViewModel.cs:77-89 | a cleared form has no photo and previews the default image when present; a selected person's existing custom photo is what the preview shows |
| PersonaVista.ValidaComoDirectorio | ChecadorComunicacion/ViewModels/PersonaViewModel.cs:180-186 | this form's validation is the directory form's on the four text fields plus both byte fields present |
| PersonaVista.NuevaFicha | ChecadorComunicacion/ViewModels/PersonaViewModel.cs:192-200 | the new record keeps the current fingerprint and photo |
| PersonaVista.FichaEditada | ChecadorComunicacion/ViewModels/PersonaViewModel.cs:211-216 | editing overwrites the six fields, the text ones trimmed, and keeps the Id |
| PersonaVista.ValidaDaFichaCompleta | ChecadorComunicacion/ViewModels/PersonaViewModel.cs:180-200 | a valid form hands the store clean text fields and both byte fields, and editing keeps the Id |
| PersonaVista.HuellaGenerada | ChecadorComunicacion/ViewModels/PersonaViewModel.cs:285 | the fingerprint has 256 bytes |
| PersonaVista.HuellaAcotada | ChecadorComunicacion/ViewModels/PersonaViewModel.cs:284-301 | in each block i = 0, 8, ..., 240: bytes i+2 and i+3 are below 200, byte i+4 is the 0..359 draw modulo 256, byte i+5 is in [50, 100), and bytes i+6, i+7 keep the NextBytes fill; bytes 248..255 are untouched |
| PersonaVista.EscribirBloque | ChecadorComunicacion/ViewModels/PersonaViewModel.cs:292-297 | one pass writes the six draws, cast to byte, into bytes i..i+5 and nothing else |
| PersonaVista.LlenarBloques | ChecadorComunicacion/ViewModels/PersonaViewModel.cs:288-299 | the stepped loop leaves the array equal to the specified fingerprint |
| PersonaVista.PersonaViewModel.constructor | ChecadorComunicacion/ViewModels/PersonaViewModel.cs:27-38 | loads the listing and starts with a cleared form |
| PersonaVista.PersonaViewModel.CargarPersonas | ChecadorComunicacion/ViewModels/PersonaViewModel.cs:159-167 | the listing is refilled with exactly what the store returns |
| PersonaVista.PersonaViewModel.SetPersonaSeleccionada | ChecadorComunicacion/ViewModels/PersonaViewModel.cs:42-66 | the same value changes nothing; a record copies its six fields into the form; null clears the form |
| PersonaVista.PersonaViewModel.Limpiar | ChecadorComunicacion/ViewModels/PersonaViewModel.cs:169-178 | the four text fields "" (the category too), fingerprint, photo and selection null |
| PersonaVista.PersonaViewModel.Validar | ChecadorComunicacion/ViewModels/PersonaViewModel.cs:180-186 | true exactly when the four text fields are non-blank and fingerprint and photo are both set |
| PersonaVista.PersonaViewModel.Agregar | ChecadorComunicacion/ViewModels/PersonaViewModel.cs:188-205 | does nothing when invalid; otherwise adds the record with trimmed text fields and the current fingerprint and photo, reloads and clears |
| PersonaVista.PersonaViewModel.Actualizar | ChecadorComunicacion/ViewModels/PersonaViewModel.cs:207-221 | does nothing without a selection or when invalid; otherwise writes the edited selection, reloads and clears |
| PersonaVista.PersonaViewModel.Eliminar | ChecadorComunicacion/ViewModels/PersonaViewModel.cs:223-230 | does nothing without a selection; otherwise removes it, reloads and clears |
| PersonaVista.PersonaViewModel.TieneFoto | ChecadorComunicacion/ViewModels/PersonaViewModel.cs:148 | a photo with at least one byte |
| PersonaVista.PersonaViewModel.FotoBase64 | ChecadorComunicacion/ViewModels/PersonaViewModel.cs:150 | null without a photo; otherwise "data:image/png;base64," followed by the Base64 text of the photo |
| PersonaVista.PersonaViewModel.HuellaTexto | ChecadorComunicacion/ViewModels/PersonaViewModel.cs:129-132 | the fingerprint's Base64 text, or "" without one |
| PersonaVista.PersonaViewModel.GenerarHuellaAleatoria | ChecadorComunicacion/ViewModels/PersonaViewModel.cs:280-307 | the fingerprint becomes the specified 256 bytes: the NextBytes fill overwritten in place block by block from the draws |
| Dialogos.TareaCierre.constructor | ChecadorComunicacion/ViewModels/DialogViewModel.cs:10 | a new completion source is not completed |
| Dialogos.TareaCierre.TrySetResult | ChecadorComunicacion/ViewModels/DialogViewModel.cs:28 | completes the task; only the first call succeeds, and a later one changes nothing |
| Dialogos.Dialogo.constructor | ChecadorComunicacion/ViewModels/DialogViewModel.cs:8-10 | closed, with an uncompleted task |
| Dialogos.Dialogo.Open | ChecadorComunicacion/ViewModels/DialogViewModel.cs:17-23 | the dialog is open; a completed task is replaced by a fresh uncompleted one, and a pending task is kept |
| Dialogos.Dialogo.Close | ChecadorComunicacion/ViewModels/DialogViewModel.cs:25-29 | the dialog is closed and its task completed; closing a closed dialog changes nothing |
| Dialogos.ConfirmDialogo.constructor | ChecadorComunicacion/ViewModels/ConfirmDialogViewModel.cs:8-14 | texts "Confirmación", "¿Estás seguro de esta acción?", "Si", "No", icon U+E7BA; not confirmed; dialog closed |
| Dialogos.ConfirmDialogo.Confirm | ChecadorComunicacion/ViewModels/ConfirmDialogViewModel.cs:16-21 | confirmed, then closed with the task completed; the texts and icon are unchanged |
| Dialogos.ConfirmDialogo.Cancel | ChecadorComunicacion/ViewModels/ConfirmDialogViewModel.cs:23-28 | not confirmed, then closed with the task completed; the texts and icon are unchanged |

## Left out

- The database layer is not part of this model. That covers EF Core, MySQL, migrations and `AsNoTracking`. The event table is a `seq` field of `Ledger.ChecadorService`.
- The person store is a log of requested writes (`Escritura`, `Operacion`), and the listing it returns afterwards is a parameter. Ids assigned by the database and the store's own effect are not modelled.
- The two-argument person-service calls that pass photo bytes are modelled as recorded writes only.
- `ObtenerChecadoresPorRangoFecha` is not defined in the service, so `Reportes.RangoFecha` is a filter on the events' day over the joined table, which is passed in.
- `ObtenerChecadores` (all events) is an unfiltered read and has no separate member.
- Reference identity of C# objects is modelled by value equality of datatypes. This affects the selection setters, which compare references.
- `PersonasVista.PersonasViewModel.Actualizar`: the source edits the selected object in place, so the change is visible in the listing before the reload. The model writes an edited copy.
- Threading, `Dispatcher`, `Task.Run` and `async`/`await` are not modelled; every command runs to completion in sequence. Logging is not modelled.
- Exceptions caught around service calls and exports are not modelled, and no failing store is modelled.
- `ReportesVista.ReportesViewModel.GenerarReporteWrapper`: its error path is not modelled. That path sets "Error: ..." and lowers the loading flag.
- `ReportesVista.ReportesViewModel.ExportarExcelWrapper`: its error path is not modelled. That path sets "Error: ...".
- `Listas.Filtrar`: the order in which `Where` keeps the elements is not stated, only which elements it keeps and how often.
- Floating point is not modelled. Worked time and totals stay in ticks, and the average is an exact fraction of ticks per day, so `TotalHours` and `Math.Round(..., 2)` are not modelled.
- The culture-aware ordering of names is replaced by ordinal (character-code) order.
- `Listas.OrdenarEstable` states sortedness and permutation, not stability. The per-person list therefore does not fix the order of events with equal (Fecha, Hora), and group order within one day and name is not fixed either.
- The text and date formatting of the sheet (`dd/MM/yyyy`, the "0.00" number format) is not modelled: a date cell holds the day number and an hours cell holds ticks. `FechaUltimoChecador` (dd/MM/yyyy) on the check-in screen is not modelled either.
- Excel styling, `AutoFitColumns`, the time-stamped file name, the Desktop location and writing the file are not modelled. The export returns the sheet as rows of cells, and the file path is a parameter.
- The check-in clock timer (`InicializarReloj`, `TiempoActual`, `FechaActual`) is not modelled.
- Change notifications are not modelled beyond the boolean `SetProperty` returns.
- Message dialogs (`ShowError`, `ShowMessage`), file pickers, temp files and Bitmap decoding are not modelled. The last message is kept as a field, and the preview is the path it would load.
- `ObtenerBytesImagenPorDefecto` is not modelled.
- `SeleccionarImagen` (both forms) is not modelled because it is file-picker I/O.
- `System.Random` is a sequence of draws, each assumed to lie in the range asked of `Next`. `Convert.ToBase64String` is a function parameter.
- Paths use '/' as the only separator. Whitespace is the ASCII subset of `char.IsWhiteSpace`.
- The `Persona` type that `PersonaViewModel.cs` edits (with `Huella` and `Foto`) is not part of this model. The record `PersonaVista.Ficha` has the fields that file uses.
- The `DialogViewModel` base class is modelled by composition: `ConfirmDialogo` holds a `Dialogo`. `WaitAsync` is not modelled.
- The directory-creating static constructor of `ImagePathHelper` is not modelled.
- Navigation, `ViewLocator`, the main window and its zoom are not modelled.

## Findings

| source | as written | input that shows it | evidently intended | confidence | as-written member | corrected member |
|---|---|---|---|---|---|---|
| ChecadorComunicacion/ViewModels/ReportesViewModel.cs:373-378 | when the exit is earlier than the entrance, `TimeOnly.Add(24 h)` wraps back to the same time of day, so the difference is negative | entrance 22:00, exit 06:00 gives −16 h | an overnight shift counts the exit on the next day: 8 h | high (not executed) | Reportes.HorasTrabajadas, Reportes.HorasTrabajadasNegativas | Reportes.HorasTurno, Reportes.HorasTurnoNocturno |

Report rows (`Reportes.Fila`) keep the duration as written, as the program computes it (`Reportes.HorasDeFila`). The corrected duration is defined beside it and is not used by the report.
