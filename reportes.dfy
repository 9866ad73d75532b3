/** The attendance report (ViewModels/ReportesViewModel.cs, pure part):
    filter validation, the date-range and category filters, grouping of
    events by (person, day), the per-group row with its first entrance
    and exit, worked time, the summary statistics and the layout of the
    exported sheet. Durations stay in ticks and the average is an exact
    fraction. */
module Reportes {
  import opened Comun
  import Listas
  import Ledger
  import Personas

  /** An event of the ledger together with its person
      (`.Include(c => c.Persona)`). */
  datatype Registro = Registro(ev: Ledger.Checador, persona: Personas.Persona)

  /** One row of the report (Models/Reporte.cs); `horasTrabajadas` in ticks. */
  datatype Reporte = Reporte(
    fecha: int,
    matricula: string,
    nombre: string,
    tipoPersona: string,
    horaEntrada: string,
    horaSalida: string,
    horasTrabajadas: int)

  const Todos: string := "Todos"
  const SinRegistro: string := "Sin registro"
  const ErrorFechasFaltantes: string := "Debe seleccionar fechas de inicio y fin"
  const ErrorOrdenFechas: string := "La fecha de inicio no puede ser mayor a la fecha fin"

  // ---------------------------------------------------------------------
  // Filters
  // ---------------------------------------------------------------------

  /** ValidarFiltros: None when the filters are usable, otherwise the
      message the view shows. Missing dates are reported first. */
  function ValidarFiltros(inicio: Option<int>, fin: Option<int>): (r: Option<string>)
    ensures r.None? <==> inicio.Some? && fin.Some? && inicio.value <= fin.value
    ensures inicio.None? || fin.None? ==> r == Some(ErrorFechasFaltantes)
    ensures inicio.Some? && fin.Some? && inicio.value > fin.value ==> r == Some(ErrorOrdenFechas)
  {
    if inicio.None? || fin.None? then Some(ErrorFechasFaltantes)
    else if inicio.value > fin.value then Some(ErrorOrdenFechas)
    else None
  }

  /** The events whose day lies in [inicio, fin], in table order. */
  function RangoFecha(tabla: seq<Registro>, inicio: int, fin: int): (r: seq<Registro>)
    ensures forall i :: 0 <= i < |r| ==> inicio <= r[i].ev.fecha <= fin
    ensures forall x :: multiset(r)[x] == if inicio <= x.ev.fecha <= fin then multiset(tabla)[x] else 0
  {
    Listas.Filtrar((x: Registro) => inicio <= x.ev.fecha <= fin, tabla)
  }

  /** The category filter: "Todos" keeps everything, any other value keeps
      the events of persons of exactly that category. */
  function FiltrarTipo(s: seq<Registro>, tipo: string): (r: seq<Registro>)
    ensures tipo == Todos ==> r == s
    ensures tipo != Todos ==> forall i :: 0 <= i < |r| ==> r[i].persona.tipoPersona == tipo
    ensures tipo != Todos ==>
      forall x :: multiset(r)[x] == if x.persona.tipoPersona == tipo then multiset(s)[x] else 0
  {
    if tipo == Todos then s
    else Listas.Filtrar((x: Registro) => x.persona.tipoPersona == tipo, s)
  }

  /** The category filter keeps exactly the events of that category, and
      with "Todos" every event. */
  lemma FiltrarTipoConserva(s: seq<Registro>, tipo: string)
    ensures forall x :: x in FiltrarTipo(s, tipo) <==> x in s && (tipo == Todos || x.persona.tipoPersona == tipo)
  {
    var r := FiltrarTipo(s, tipo);
    forall x ensures x in r <==> x in s && (tipo == Todos || x.persona.tipoPersona == tipo) {
      assert x in r <==> x in multiset(r);
      assert x in s <==> x in multiset(s);
    }
  }

  // ---------------------------------------------------------------------
  // Grouping by (PersonaId, Fecha)
  // ---------------------------------------------------------------------

  datatype Clave = Clave(personaId: int, fecha: int)

  function ClaveDe(x: Registro): Clave {
    Clave(x.ev.personaId, x.ev.fecha)
  }

  /** A GroupBy group: its key and its events in input order. */
  datatype Grupo = Grupo(clave: Clave, registros: seq<Registro>)

  /** The events with key k, in input order. */
  function DeClave(s: seq<Registro>, k: Clave): (r: seq<Registro>)
    ensures forall i :: 0 <= i < |r| ==> ClaveDe(r[i]) == k
    ensures forall x :: multiset(r)[x] == if ClaveDe(x) == k then multiset(s)[x] else 0
  {
    Listas.Filtrar((x: Registro) => ClaveDe(x) == k, s)
  }

  /** Some event of s has key k. */
  predicate HayClave(s: seq<Registro>, k: Clave) {
    exists i :: 0 <= i < |s| && ClaveDe(s[i]) == k
  }

  /** The distinct keys of s in order of first appearance. */
  function Claves(s: seq<Registro>): (r: seq<Clave>)
    ensures Listas.SinRepetidos(r)
    ensures forall k :: k in r <==> HayClave(s, k)
  {
    if s == [] then []
    else
      var init, x := s[..|s| - 1], s[|s| - 1];
      var previas := Claves(init);
      assert forall k :: HayClave(s, k) <==> HayClave(init, k) || k == ClaveDe(x) by {
        forall k ensures HayClave(s, k) <==> HayClave(init, k) || k == ClaveDe(x) {
          if HayClave(init, k) {
            var i :| 0 <= i < |init| && ClaveDe(init[i]) == k;
            assert s[i] == init[i];
          }
          if HayClave(s, k) && k != ClaveDe(x) {
            var i :| 0 <= i < |s| && ClaveDe(s[i]) == k;
            assert init[i] == s[i];
          }
        }
      }
      if ClaveDe(x) in previas then previas else previas + [ClaveDe(x)]
  }

  /** `GroupBy(c => new { c.PersonaId, c.Fecha })`: one group per distinct
      key, in order of first appearance, each holding the events with that
      key in input order. */
  function Agrupar(s: seq<Registro>): (r: seq<Grupo>)
  {
    var ks := Claves(s);
    seq(|ks|, i requires 0 <= i < |ks| => Grupo(ks[i], DeClave(s, ks[i])))
  }

  /** The groups partition the input: their keys are distinct and are
      exactly the keys present; each group is non-empty and holds exactly
      the events with its key, so every event lies in the group of its
      key and in no other. */
  lemma AgruparCorrecto(s: seq<Registro>)
    ensures var r := Agrupar(s);
      (forall i, j :: 0 <= i < j < |r| ==> r[i].clave != r[j].clave)
      && (forall k :: (exists i :: 0 <= i < |r| && r[i].clave == k) <==> HayClave(s, k))
      && (forall i :: 0 <= i < |r| ==> r[i].registros == DeClave(s, r[i].clave) && |r[i].registros| > 0)
  {
    var r := Agrupar(s);
    var ks := Claves(s);
    forall k | HayClave(s, k) ensures exists i :: 0 <= i < |r| && r[i].clave == k {
      var i :| 0 <= i < |ks| && ks[i] == k;
      assert r[i].clave == k;
    }
    forall i | 0 <= i < |r| ensures |r[i].registros| > 0 {
      var k := ks[i];
      assert HayClave(s, k);
      var j :| 0 <= j < |s| && ClaveDe(s[j]) == k;
      assert s[j] in multiset(s);
      assert s[j] in multiset(DeClave(s, k));
    }
  }

  // ---------------------------------------------------------------------
  // Ordering of the groups and of the events inside a group
  // ---------------------------------------------------------------------

  /** `g.First().Persona.Nombre` */
  function NombreDe(g: Grupo): string {
    if |g.registros| > 0 then g.registros[0].persona.nombre else ""
  }

  /** `.OrderBy(g => g.Key.Fecha).ThenBy(g => g.First().Persona.Nombre)` as
      a comparison; names compare in ordinal order. */
  predicate GrupoNoPosterior(a: Grupo, b: Grupo) {
    a.clave.fecha < b.clave.fecha
    || (a.clave.fecha == b.clave.fecha && TextoMenorIgual(NombreDe(a), NombreDe(b)))
  }

  lemma GrupoNoPosteriorEsPreorden()
    ensures Listas.PreordenTotal(GrupoNoPosterior)
  {
    forall a, b ensures GrupoNoPosterior(a, b) || GrupoNoPosterior(b, a) {
      TextoMenorIgualTotal(NombreDe(a), NombreDe(b));
    }
    forall a, b, c | GrupoNoPosterior(a, b) && GrupoNoPosterior(b, c) ensures GrupoNoPosterior(a, c) {
      if a.clave.fecha == b.clave.fecha == c.clave.fecha {
        TextoMenorIgualTransitivo(NombreDe(a), NombreDe(b), NombreDe(c));
      }
    }
  }

  /** The groups of s in report order. */
  function GruposOrdenados(s: seq<Registro>): (r: seq<Grupo>)
    ensures Listas.Ordenada(GrupoNoPosterior, r)
    ensures multiset(r) == multiset(Agrupar(s))
  {
    GrupoNoPosteriorEsPreorden();
    Listas.OrdenarEstable(GrupoNoPosterior, Agrupar(s))
  }

  /** What a group of Agrupar(s) is, wherever it ends up. */
  lemma EnAgrupar(s: seq<Registro>, g: Grupo)
    requires g in Agrupar(s)
    ensures g.registros == DeClave(s, g.clave) && |g.registros| > 0 && HayClave(s, g.clave)
  {
    AgruparCorrecto(s);
    var a := Agrupar(s);
    var i :| 0 <= i < |a| && a[i] == g;
  }

  /** Each sorted group is the group of its key, with every event of that
      key. */
  lemma GruposOrdenadosContenido(s: seq<Registro>)
    ensures var r := GruposOrdenados(s);
      forall i :: 0 <= i < |r| ==>
        r[i].registros == DeClave(s, r[i].clave) && |r[i].registros| > 0 && HayClave(s, r[i].clave)
  {
    var r := GruposOrdenados(s);
    Listas.MismosElementos(Agrupar(s), r);
    forall i | 0 <= i < |r|
      ensures r[i].registros == DeClave(s, r[i].clave) && |r[i].registros| > 0 && HayClave(s, r[i].clave)
    {
      EnAgrupar(s, r[i]);
    }
  }

  /** No two sorted groups share a key. */
  lemma GruposOrdenadosClavesDistintas(s: seq<Registro>)
    ensures var r := GruposOrdenados(s);
      forall i, j :: 0 <= i < j < |r| ==> r[i].clave != r[j].clave
  {
    var a := Agrupar(s);
    var r := GruposOrdenados(s);
    GruposOrdenadosContenido(s);
    AgruparCorrecto(s);
    assert Listas.SinRepetidos(a);
    Listas.PermutacionSinRepetidos(a, r);
  }

  /** A key present in s has a group in Agrupar(s). */
  lemma ClaveEnAgrupar(s: seq<Registro>, k: Clave)
    requires HayClave(s, k)
    ensures exists g :: g in Agrupar(s) && g.clave == k
  {
    var ks := Claves(s);
    var i :| 0 <= i < |ks| && ks[i] == k;
    assert Agrupar(s)[i].clave == k;
    assert Agrupar(s)[i] in Agrupar(s);
  }

  /** A key present in s has a group among the sorted ones. */
  lemma GrupoDeClave(s: seq<Registro>, k: Clave)
    requires HayClave(s, k)
    ensures exists i :: 0 <= i < |GruposOrdenados(s)| && GruposOrdenados(s)[i].clave == k
  {
    var a := Agrupar(s);
    var r := GruposOrdenados(s);
    ClaveEnAgrupar(s, k);
    var g :| g in a && g.clave == k;
    var j := Listas.PosicionEnPermutacion(a, r, g);
    assert r[j].clave == k;
  }

  /** Every key present in s has a sorted group. */
  lemma GruposOrdenadosCubren(s: seq<Registro>)
    ensures var r := GruposOrdenados(s);
      forall k :: HayClave(s, k) ==> exists i :: 0 <= i < |r| && r[i].clave == k
  {
    forall k | HayClave(s, k) ensures exists i :: 0 <= i < |GruposOrdenados(s)| && GruposOrdenados(s)[i].clave == k {
      GrupoDeClave(s, k);
    }
  }

  /** Exactly one group per distinct (PersonaId, Fecha) present in s, each
      holding all events with that key; groups ascend by day and, within a
      day, by the name of the group's first person. */
  lemma GruposOrdenadosCorrecto(s: seq<Registro>)
    ensures var r := GruposOrdenados(s);
      (forall i, j :: 0 <= i < j < |r| ==> r[i].clave != r[j].clave)
      && (forall k :: (exists i :: 0 <= i < |r| && r[i].clave == k) <==> HayClave(s, k))
      && (forall i :: 0 <= i < |r| ==> r[i].registros == DeClave(s, r[i].clave) && |r[i].registros| > 0)
      && (forall i, j :: 0 <= i < j < |r| ==> r[i].clave.fecha <= r[j].clave.fecha)
  {
    GruposOrdenadosContenido(s);
    GruposOrdenadosClavesDistintas(s);
    GruposOrdenadosCubren(s);
  }

  /** `.OrderBy(c => c.Hora)` inside a group. */
  predicate HoraNoPosterior(a: Registro, b: Registro) {
    a.ev.hora <= b.ev.hora
  }

  function PorHora(s: seq<Registro>): (r: seq<Registro>)
    ensures Listas.Ordenada(HoraNoPosterior, r)
    ensures multiset(r) == multiset(s)
  {
    Listas.OrdenarEstable(HoraNoPosterior, s)
  }

  /** `registrosDelDia.FirstOrDefault(r => r.TipoAccion == tipo)` */
  function PrimeroDeTipo(s: seq<Registro>, tipo: string): (r: Option<Registro>)
  {
    Listas.Primero((x: Registro) => x.ev.tipoAccion == tipo, PorHora(s))
  }

  /** In a list sorted by time, the first event of a kind is not later
      than any other event of that kind. */
  lemma PrimeroEsMinimo(o: seq<Registro>, tipo: string, i: int)
    requires Listas.Ordenada(HoraNoPosterior, o)
    requires 0 <= i < |o| && o[i].ev.tipoAccion == tipo
    requires forall j :: 0 <= j < i ==> o[j].ev.tipoAccion != tipo
    ensures forall j :: 0 <= j < |o| && o[j].ev.tipoAccion == tipo ==> o[i].ev.hora <= o[j].ev.hora
  {
    forall j | 0 <= j < |o| && o[j].ev.tipoAccion == tipo ensures o[i].ev.hora <= o[j].ev.hora {
      if i < j {
        assert HoraNoPosterior(o[i], o[j]);
      }
    }
  }

  /** The event picked for a kind is one of the group's events of that
      kind with the earliest time, and there is none exactly when the group
      has no event of that kind. */
  lemma {:induction false} PrimeroDeTipoCorrecto(s: seq<Registro>, tipo: string)
    ensures PrimeroDeTipo(s, tipo).None? <==> forall x :: x in s ==> x.ev.tipoAccion != tipo
    ensures var r := PrimeroDeTipo(s, tipo);
      r.Some? ==> (r.value in s && r.value.ev.tipoAccion == tipo
        && forall x :: x in s && x.ev.tipoAccion == tipo ==> r.value.ev.hora <= x.ev.hora)
  {
    var o := PorHora(s);
    var esTipo := (x: Registro) => x.ev.tipoAccion == tipo;
    var r := Listas.Primero(esTipo, o);
    assert r == PrimeroDeTipo(s, tipo);
    Listas.MismosElementos(s, o);
    if r.Some? {
      var i :| 0 <= i < |o| && o[i] == r.value && esTipo(o[i]) && forall j :: 0 <= j < i ==> !esTipo(o[j]);
      PrimeroEsMinimo(o, tipo, i);
      forall x | x in s && x.ev.tipoAccion == tipo ensures r.value.ev.hora <= x.ev.hora {
        var j := Listas.Posicion(o, x);
      }
    } else {
      forall x | x in s ensures x.ev.tipoAccion != tipo {
        var j := Listas.Posicion(o, x);
        assert !esTipo(o[j]);
      }
    }
  }

  // ---------------------------------------------------------------------
  // Worked time
  // ---------------------------------------------------------------------

  /** TimeOnly.Add: wraps around midnight. */
  function SumarAHora(t: HoraDelDia, d: int): (r: HoraDelDia)
    ensures (r - t - d) % TicksPorDia == 0
  {
    (t + d) % TicksPorDia
  }

  /** CalcularHorasTrabajadas as written: 0 when either event is missing,
      otherwise exit minus entrance. The "+24 h" for an exit earlier than
      the entrance is a TimeOnly.Add, which wraps to the same time of day,
      so such a pair gives a negative duration. */
  function HorasTrabajadas(entrada: Option<Ledger.Checador>, salida: Option<Ledger.Checador>): (r: int)
    ensures entrada.None? || salida.None? ==> r == 0
    ensures entrada.Some? && salida.Some? ==> r == salida.value.hora - entrada.value.hora
    ensures -TicksPorDia < r < TicksPorDia
  {
    if entrada.None? || salida.None? then 0
    else
      var te := entrada.value.hora;
      var ts := if salida.value.hora < te then SumarAHora(salida.value.hora, TicksPorDia) else salida.value.hora;
      ts - te
  }

  /** An entrance at 22:00 and an exit at 06:00 yield minus sixteen hours. */
  lemma HorasTrabajadasNegativas()
    ensures HorasTrabajadas(Some(Ledger.Checador(1, Ledger.Entrada, 0, 22 * TicksPorHora, 1)),
                            Some(Ledger.Checador(2, Ledger.Salida, 0, 6 * TicksPorHora, 1)))
            == -16 * TicksPorHora
  {
  }

  /** The evidently intended duration: an exit earlier than the entrance
      belongs to the next day. */
  function HorasTurno(entrada: Option<Ledger.Checador>, salida: Option<Ledger.Checador>): (r: int)
    ensures entrada.None? || salida.None? ==> r == 0
    ensures 0 <= r < TicksPorDia
    ensures entrada.Some? && salida.Some? ==> (entrada.value.hora + r) % TicksPorDia == salida.value.hora
    ensures entrada.Some? && salida.Some? && entrada.value.hora <= salida.value.hora ==>
      r == HorasTrabajadas(entrada, salida)
  {
    if entrada.None? || salida.None? then 0
    else
      var te, ts := entrada.value.hora, salida.value.hora;
      if ts < te then ts + TicksPorDia - te else ts - te
  }

  /** The overnight example gives eight hours once corrected. */
  lemma HorasTurnoNocturno()
    ensures HorasTurno(Some(Ledger.Checador(1, Ledger.Entrada, 0, 22 * TicksPorHora, 1)),
                       Some(Ledger.Checador(2, Ledger.Salida, 0, 6 * TicksPorHora, 1)))
            == 8 * TicksPorHora
  {
  }

  // ---------------------------------------------------------------------
  // Rows
  // ---------------------------------------------------------------------

  /** `entrada?.Hora.ToString("HH:mm") ?? "Sin registro"` */
  function TextoHora(e: Option<Registro>): (s: string)
  {
    if e.None? then SinRegistro else FormatoHHmm(e.value.ev.hora)
  }

  function Evento(e: Option<Registro>): Option<Ledger.Checador> {
    if e.None? then None else Some(e.value.ev)
  }

  /** The report row of one group. */
  function Fila(g: Grupo): (r: Reporte)
    requires |g.registros| > 0
  {
    var p := g.registros[0].persona;
    var entrada := PrimeroDeTipo(g.registros, Ledger.Entrada);
    var salida := PrimeroDeTipo(g.registros, Ledger.Salida);
    Reporte(g.clave.fecha, p.matricula, p.nombre + " " + p.apellido, p.tipoPersona,
            TextoHora(entrada), TextoHora(salida), HorasTrabajadas(Evento(entrada), Evento(salida)))
  }

  /** A row carries the group's day and first person; its entrance (exit)
      is "Sin registro" exactly when the group has no Entrada (Salida),
      otherwise the HH:mm of an Entrada (Salida) of the group that no other
      one precedes; the worked time is 0 unless both exist. */
  lemma FilaCorrecta(g: Grupo)
    requires |g.registros| > 0
    ensures var r := Fila(g);
      var p := g.registros[0].persona;
      r.fecha == g.clave.fecha && r.matricula == p.matricula
      && r.nombre == p.nombre + " " + p.apellido && r.tipoPersona == p.tipoPersona
      && (r.horaEntrada == SinRegistro <==> forall x :: x in g.registros ==> x.ev.tipoAccion != Ledger.Entrada)
      && (r.horaSalida == SinRegistro <==> forall x :: x in g.registros ==> x.ev.tipoAccion != Ledger.Salida)
      && (r.horaEntrada != SinRegistro ==> exists e :: (e in g.registros && e.ev.tipoAccion == Ledger.Entrada
            && r.horaEntrada == FormatoHHmm(e.ev.hora)
            && forall x :: x in g.registros && x.ev.tipoAccion == Ledger.Entrada ==> e.ev.hora <= x.ev.hora))
      && (r.horaSalida != SinRegistro ==> exists e :: (e in g.registros && e.ev.tipoAccion == Ledger.Salida
            && r.horaSalida == FormatoHHmm(e.ev.hora)
            && forall x :: x in g.registros && x.ev.tipoAccion == Ledger.Salida ==> e.ev.hora <= x.ev.hora))
      && (r.horaEntrada == SinRegistro || r.horaSalida == SinRegistro ==> r.horasTrabajadas == 0)
  {
    PrimeroDeTipoCorrecto(g.registros, Ledger.Entrada);
    PrimeroDeTipoCorrecto(g.registros, Ledger.Salida);
    FilaDePrimeros(g);
    var e := PrimeroDeTipo(g.registros, Ledger.Entrada);
    var s := PrimeroDeTipo(g.registros, Ledger.Salida);
    if e.Some? {
      assert |FormatoHHmm(e.value.ev.hora)| == 5;
    }
    if s.Some? {
      assert |FormatoHHmm(s.value.ev.hora)| == 5;
    }
  }

  /** `x` is an event of kind `tipo` in `s` that no other event of that
      kind precedes. */
  ghost predicate EsPrimero(s: seq<Registro>, x: Registro, tipo: string) {
    x in s && x.ev.tipoAccion == tipo
    && forall y :: y in s && y.ev.tipoAccion == tipo ==> x.ev.hora <= y.ev.hora
  }

  /** The worked time of a row, as CalcularHorasTrabajadas computes it:
      when the group has both an Entrada and a Salida, it is the time of
      the earliest Salida minus that of the earliest Entrada (the two the
      row shows), negative when the exit is earlier. */
  lemma HorasDeFila(g: Grupo)
    requires |g.registros| > 0
    ensures ((exists x :: x in g.registros && x.ev.tipoAccion == Ledger.Entrada)
             && (exists x :: x in g.registros && x.ev.tipoAccion == Ledger.Salida)) ==>
      exists e, s :: EsPrimero(g.registros, e, Ledger.Entrada) && EsPrimero(g.registros, s, Ledger.Salida)
        && Fila(g).horaEntrada == FormatoHHmm(e.ev.hora) && Fila(g).horaSalida == FormatoHHmm(s.ev.hora)
        && Fila(g).horasTrabajadas == s.ev.hora - e.ev.hora
  {
    PrimeroDeTipoCorrecto(g.registros, Ledger.Entrada);
    PrimeroDeTipoCorrecto(g.registros, Ledger.Salida);
    var e := PrimeroDeTipo(g.registros, Ledger.Entrada);
    var s := PrimeroDeTipo(g.registros, Ledger.Salida);
    var r := Fila(g);
    FilaDePrimeros(g);
    if e.Some? && s.Some? {
      assert EsPrimero(g.registros, e.value, Ledger.Entrada) && EsPrimero(g.registros, s.value, Ledger.Salida);
      assert r.horaEntrada == FormatoHHmm(e.value.ev.hora) && r.horaSalida == FormatoHHmm(s.value.ev.hora)
        && r.horasTrabajadas == s.value.ev.hora - e.value.ev.hora;
    }
  }

  /** The shown times and the worked time of a row come from the earliest
      Entrada and Salida. */
  lemma FilaDePrimeros(g: Grupo)
    requires |g.registros| > 0
    ensures var e, s := PrimeroDeTipo(g.registros, Ledger.Entrada), PrimeroDeTipo(g.registros, Ledger.Salida);
      Fila(g).horaEntrada == TextoHora(e) && Fila(g).horaSalida == TextoHora(s)
      && Fila(g).horasTrabajadas == HorasTrabajadas(Evento(e), Evento(s))
  {
  }

  /** A row's worked time lies within one day either way. */
  lemma HorasDeFilaAcotadas(g: Grupo)
    requires |g.registros| > 0
    ensures -TicksPorDia < Fila(g).horasTrabajadas < TicksPorDia
  {
  }

  /** The rows of the groups, in order. */
  function Filas(gs: seq<Grupo>): (r: seq<Reporte>)
    requires forall i :: 0 <= i < |gs| ==> |gs[i].registros| > 0
    ensures |r| == |gs|
    ensures forall i :: 0 <= i < |gs| ==> r[i].fecha == gs[i].clave.fecha
    decreases |gs|
  {
    if gs == [] then []
    else
      var init, g := gs[..|gs| - 1], gs[|gs| - 1];
      assert forall i :: 0 <= i < |init| ==> init[i] == gs[i];
      FechaDeFila(g);
      Filas(init) + [Fila(g)]
  }

  /** A row carries its group's day. */
  lemma FechaDeFila(g: Grupo)
    requires |g.registros| > 0
    ensures Fila(g).fecha == g.clave.fecha
  {
  }

  /** The groups the report is built from. */
  function GruposDelReporte(tabla: seq<Registro>, inicio: int, fin: int, tipo: string): (r: seq<Grupo>)
    ensures forall i :: 0 <= i < |r| ==> |r[i].registros| > 0
  {
    var s := FiltrarTipo(RangoFecha(tabla, inicio, fin), tipo);
    GruposNoVacios(s);
    GruposOrdenados(s)
  }

  /** No sorted group is empty. */
  lemma GruposNoVacios(s: seq<Registro>)
    ensures forall i :: 0 <= i < |GruposOrdenados(s)| ==> |GruposOrdenados(s)[i].registros| > 0
  {
    GruposOrdenadosContenido(s);
  }

  /** There are as many sorted groups as distinct keys. */
  lemma CuentaDeGrupos(s: seq<Registro>)
    ensures |GruposOrdenados(s)| == |Claves(s)|
  {
    assert |multiset(GruposOrdenados(s))| == |multiset(Agrupar(s))|;
  }

  /** Every event that passes both filters lies inside the date range. */
  lemma EnRango(tabla: seq<Registro>, inicio: int, fin: int, tipo: string, x: Registro)
    requires x in FiltrarTipo(RangoFecha(tabla, inicio, fin), tipo)
    ensures inicio <= x.ev.fecha <= fin
  {
    var rango := RangoFecha(tabla, inicio, fin);
    FiltrarTipoConserva(rango, tipo);
    var k :| 0 <= k < |rango| && rango[k] == x;
  }

  /** Every group of the report has its day inside the date range. */
  lemma GruposEnRango(tabla: seq<Registro>, inicio: int, fin: int, tipo: string)
    ensures var g := GruposDelReporte(tabla, inicio, fin, tipo);
      forall i :: 0 <= i < |g| ==> inicio <= g[i].clave.fecha <= fin
  {
    var s := FiltrarTipo(RangoFecha(tabla, inicio, fin), tipo);
    var g := GruposDelReporte(tabla, inicio, fin, tipo);
    GruposOrdenadosContenido(s);
    forall i | 0 <= i < |g| ensures inicio <= g[i].clave.fecha <= fin {
      assert HayClave(s, g[i].clave);
      var j :| 0 <= j < |s| && ClaveDe(s[j]) == g[i].clave;
      EnRango(tabla, inicio, fin, tipo, s[j]);
    }
  }

  /** The report holds one row per distinct (PersonaId, Fecha) among the
      events that pass both filters, ascending by day, each day inside the
      date range. */
  lemma FilasDelReporte(tabla: seq<Registro>, inicio: int, fin: int, tipo: string)
    ensures var s := FiltrarTipo(RangoFecha(tabla, inicio, fin), tipo);
      var r := Filas(GruposDelReporte(tabla, inicio, fin, tipo));
      |r| == |Claves(s)|
      && (forall i, j :: 0 <= i < j < |r| ==> r[i].fecha <= r[j].fecha)
      && (forall i :: 0 <= i < |r| ==> inicio <= r[i].fecha <= fin)
  {
    var s := FiltrarTipo(RangoFecha(tabla, inicio, fin), tipo);
    var grupos := GruposDelReporte(tabla, inicio, fin, tipo);
    CuentaDeGrupos(s);
    GruposEnRango(tabla, inicio, fin, tipo);
    forall i, j | 0 <= i < j < |grupos| ensures grupos[i].clave.fecha <= grupos[j].clave.fecha {
      assert GrupoNoPosterior(grupos[i], grupos[j]);
    }
  }

  /** The loop of ObtenerDatosReporte: one row per group, appended in
      group order. */
  method FilasDeGrupos(grupos: seq<Grupo>) returns (lista: seq<Reporte>)
    requires forall i :: 0 <= i < |grupos| ==> |grupos[i].registros| > 0
    ensures lista == Filas(grupos)
  {
    lista := [];
    var i := 0;
    while i < |grupos|
      invariant 0 <= i <= |grupos|
      invariant lista == Filas(grupos[..i])
    {
      assert grupos[..i + 1][..i] == grupos[..i];
      lista := lista + [Fila(grupos[i])];
      i := i + 1;
    }
    assert grupos[..|grupos|] == grupos;
  }

  /** ObtenerDatosReporte: groups the filtered events and builds their rows. */
  method ObtenerDatosReporte(tabla: seq<Registro>, inicio: int, fin: int, tipo: string)
    returns (lista: seq<Reporte>)
    ensures lista == Filas(GruposDelReporte(tabla, inicio, fin, tipo))
  {
    var grupos := GruposDelReporte(tabla, inicio, fin, tipo);
    lista := FilasDeGrupos(grupos);
  }

  // ---------------------------------------------------------------------
  // Statistics
  // ---------------------------------------------------------------------

  /** An exact fraction num / den, standing for the rounded double. */
  datatype Fraccion = Fraccion(num: int, den: int)

  /** The distinct matriculas of the rows. */
  function Matriculas(rs: seq<Reporte>): (m: set<string>)
    ensures forall x :: x in m <==> exists i :: 0 <= i < |rs| && rs[i].matricula == x
  {
    if rs == [] then {}
    else
      var init := rs[..|rs| - 1];
      assert forall i :: 0 <= i < |init| ==> init[i] == rs[i];
      Matriculas(init) + {rs[|rs| - 1].matricula}
  }

  /** At most as many distinct persons as rows, and at least one when there
      is a row. */
  lemma {:induction false} MatriculasAcotadas(rs: seq<Reporte>)
    ensures |Matriculas(rs)| <= |rs|
    ensures |rs| > 0 ==> |Matriculas(rs)| >= 1
  {
    if rs != [] {
      var init := rs[..|rs| - 1];
      MatriculasAcotadas(init);
      assert rs[|rs| - 1].matricula in Matriculas(rs);
    }
  }

  /** The sum of the rows' worked time. */
  function SumaHoras(rs: seq<Reporte>): (t: int)
  {
    if rs == [] then 0 else SumaHoras(rs[..|rs| - 1]) + rs[|rs| - 1].horasTrabajadas
  }

  /** When no row's worked time exceeds `cota` in absolute value (a row's
      lies within one day either way, see HorasDeFilaAcotadas), the total stays
      within `cota` times the count of rows either way. */
  lemma {:induction false} SumaHorasAcotada(rs: seq<Reporte>, cota: int)
    requires forall i :: 0 <= i < |rs| ==> -cota <= rs[i].horasTrabajadas <= cota
    ensures -(|rs| * cota) <= SumaHoras(rs) <= |rs| * cota
  {
    if rs != [] {
      SumaHorasAcotada(rs[..|rs| - 1], cota);
    }
  }

  /** Days covered by the date filter: `(fin - inicio).Days + 1`. */
  function Dias(inicio: int, fin: int): int {
    fin - inicio + 1
  }

  /** PromedioHorasPorDia: total over days, or 0 when the count of days is
      not positive. */
  function Promedio(total: int, dias: int): (f: Fraccion)
    ensures f.den > 0
    ensures dias > 0 ==> f.num == total && f.den == dias
    ensures dias <= 0 ==> f.num == 0
  {
    if dias > 0 then Fraccion(total, dias) else Fraccion(0, 1)
  }

  // ---------------------------------------------------------------------
  // The exported sheet
  // ---------------------------------------------------------------------

  /** A cell value; the date and the durations keep their model values and
      their rendering is left to the sheet. */
  datatype Celda = Texto(s: string) | Entero(n: int) | Dia(d: int) | Duracion(ticks: int) | Cociente(f: Fraccion)

  const Encabezados: seq<string> :=
    ["Fecha", "Matrícula", "Nombre", "Tipo", "Entrada", "Salida", "Horas Trabajadas"]

  /** The seven cells of a row, column 1 to 7. */
  function CeldasDe(r: Reporte): (c: seq<Celda>)
    ensures |c| == 7
  {
    [Dia(r.fecha), Texto(r.matricula), Texto(r.nombre), Texto(r.tipoPersona),
     Texto(r.horaEntrada), Texto(r.horaSalida), Duracion(r.horasTrabajadas)]
  }

  /** The statistics copied into the sheet. */
  datatype Resumen = Resumen(totalRegistros: int, personasUnicas: int, totalHoras: int, promedio: Fraccion)

  /** The header row. */
  const Titulos: seq<Celda> := seq(7, c requires 0 <= c < 7 => Texto(Encabezados[c]))

  /** The labelled statistics block, one row per label. */
  function BloqueResumen(resumen: Resumen): (b: seq<seq<Celda>>)
    ensures |b| == 5
  {
    [[Texto("ESTADÍSTICAS")],
     [Texto("Total Registros:"), Entero(resumen.totalRegistros)],
     [Texto("Personas Únicas:"), Entero(resumen.personasUnicas)],
     [Texto("Total Horas:"), Duracion(resumen.totalHoras)],
     [Texto("Promedio Horas/Día:"), Cociente(resumen.promedio)]]
  }

  /** The row where the statistics block starts. */
  function FilaEstadisticas(n: nat): (f: nat)
  {
    n + 4
  }

  /** The cell in sheet row f, column c (both from 1), if written. */
  function CeldaEn(hoja: seq<seq<Celda>>, f: int, c: int): Option<Celda> {
    if 1 <= f <= |hoja| && 1 <= c <= |hoja[f - 1]| then Some(hoja[f - 1][c - 1]) else None
  }

  /** The export loop over a sheet kept as its list of rows, sheet row f
      being element f - 1: the header, then the row at index i in sheet
      row i + 2, two empty rows, and the statistics from row count + 4. */
  method ExportarHoja(reportes: seq<Reporte>, resumen: Resumen) returns (hoja: seq<seq<Celda>>)
    ensures |hoja| == FilaEstadisticas(|reportes|) + 4
    ensures hoja[0] == Titulos
    ensures forall i :: 0 <= i < |reportes| ==> hoja[i + 1] == CeldasDe(reportes[i])
    ensures hoja[|reportes| + 1] == [] && hoja[|reportes| + 2] == []
    ensures hoja[FilaEstadisticas(|reportes|) - 1..] == BloqueResumen(resumen)
  {
    hoja := [Titulos];
    var i := 0;
    while i < |reportes|
      invariant 0 <= i <= |reportes|
      invariant |hoja| == i + 1 && hoja[0] == Titulos
      invariant forall j :: 0 <= j < i ==> hoja[j + 1] == CeldasDe(reportes[j])
    {
      hoja := hoja + [CeldasDe(reportes[i])];
      i := i + 1;
    }
    hoja := hoja + [[], []] + BloqueResumen(resumen);
  }

  /** Read cell by cell: row i of the report is in sheet row i + 2 and
      the seven columns, and the statistics labels in column 1 of rows
      count + 4 to count + 8 with their values in column 2. */
  lemma {:induction false} CeldasDeLaHoja(hoja: seq<seq<Celda>>, reportes: seq<Reporte>, resumen: Resumen)
    requires |hoja| == FilaEstadisticas(|reportes|) + 4
    requires hoja[0] == Titulos
    requires forall i :: 0 <= i < |reportes| ==> hoja[i + 1] == CeldasDe(reportes[i])
    requires hoja[FilaEstadisticas(|reportes|) - 1..] == BloqueResumen(resumen)
    ensures forall c :: 1 <= c <= 7 ==> CeldaEn(hoja, 1, c) == Some(Texto(Encabezados[c - 1]))
    ensures forall f, c :: 2 <= f < |reportes| + 2 && 1 <= c <= 7 ==>
      CeldaEn(hoja, f, c) == Some(CeldasDe(reportes[f - 2])[c - 1])
    ensures var e := FilaEstadisticas(|reportes|);
      CeldaEn(hoja, e, 1) == Some(Texto("ESTADÍSTICAS"))
      && CeldaEn(hoja, e + 1, 2) == Some(Entero(resumen.totalRegistros))
      && CeldaEn(hoja, e + 2, 2) == Some(Entero(resumen.personasUnicas))
      && CeldaEn(hoja, e + 3, 2) == Some(Duracion(resumen.totalHoras))
      && CeldaEn(hoja, e + 4, 2) == Some(Cociente(resumen.promedio))
  {
    var e := FilaEstadisticas(|reportes|);
    var b := BloqueResumen(resumen);
    forall k | 0 <= k < 5 ensures hoja[e - 1 + k] == b[k] {
      assert hoja[e - 1..][k] == b[k];
    }
  }
}
