/** The attendance ledger (Services/ChecadorService.cs): the table of
    check-in events, the per-person queries over it, the Entrada/Salida
    rule and the operations that write the table. The relational store is
    replaced by a sequence of records; the clock reading that stamps a new
    event is a parameter. */
module Ledger {
  import opened Comun
  import Listas

  /** One row of the Checadores table (Models/Checador.cs). `fecha` is a
      day number (DateOnly), `hora` the ticks since midnight (TimeOnly).
      The kind is a free string, as in the source. */
  datatype Checador = Checador(id: int, tipoAccion: string, fecha: int, hora: HoraDelDia, personaId: int)

  const Entrada: string := "Entrada"
  const Salida: string := "Salida"

  /** (fecha, hora) of a is not later than that of b. */
  predicate NoPosterior(a: Checador, b: Checador) {
    a.fecha < b.fecha || (a.fecha == b.fecha && a.hora <= b.hora)
  }

  /** (fecha, hora) of e is strictly earlier than the instant (fecha, hora). */
  predicate AntesDe(e: Checador, fecha: int, hora: HoraDelDia) {
    e.fecha < fecha || (e.fecha == fecha && e.hora < hora)
  }

  /** Every event of person pid in s happened strictly before (fecha, hora). */
  predicate TodosAntesDe(s: seq<Checador>, pid: int, fecha: int, hora: HoraDelDia) {
    forall i :: 0 <= i < |s| && s[i].personaId == pid ==> AntesDe(s[i], fecha, hora)
  }

  /** The person has no event in s. */
  predicate SinRegistros(s: seq<Checador>, pid: int) {
    forall i :: 0 <= i < |s| ==> s[i].personaId != pid
  }

  // ---------------------------------------------------------------------
  // Queries
  // ---------------------------------------------------------------------

  /** `.Where(c => c.PersonaId == personaId)`: the events of one person, in
      table order. */
  function DePersona(s: seq<Checador>, pid: int): (r: seq<Checador>)
    ensures forall i :: 0 <= i < |r| ==> r[i].personaId == pid
    ensures forall e :: multiset(r)[e] == if e.personaId == pid then multiset(s)[e] else 0
  {
    Listas.Filtrar((e: Checador) => e.personaId == pid, s)
  }

  /** Ascending by (fecha, hora). */
  predicate Ordenado(s: seq<Checador>) {
    Listas.Ordenada(NoPosterior, s)
  }

  /** (fecha, hora) order compares any two events and chains. */
  lemma NoPosteriorEsPreorden()
    ensures Listas.PreordenTotal(NoPosterior)
  {
  }

  /** `.OrderBy(c => c.Fecha).ThenBy(c => c.Hora)` */
  function Ordenar(s: seq<Checador>): (r: seq<Checador>)
    ensures Ordenado(r)
    ensures multiset(r) == multiset(s)
  {
    NoPosteriorEsPreorden();
    Listas.OrdenarEstable(NoPosterior, s)
  }

  /** ObtenerChecadoresPorPersona */
  function ChecadoresPorPersona(s: seq<Checador>, pid: int): (r: seq<Checador>)
  {
    Ordenar(DePersona(s, pid))
  }

  /** The per-person list holds exactly the events of that person, each as
      many times as in the table, in ascending (fecha, hora) order. */
  lemma ChecadoresPorPersonaCorrecto(s: seq<Checador>, pid: int)
    ensures var r := ChecadoresPorPersona(s, pid);
      Ordenado(r)
      && (forall e :: e in r ==> e.personaId == pid && e in s)
      && (forall e :: e in s && e.personaId == pid ==> e in r)
      && (forall e :: multiset(r)[e] == if e.personaId == pid then multiset(s)[e] else 0)
  {
    forall e | e in ChecadoresPorPersona(s, pid) ensures e.personaId == pid && e in s {
      DePorPersona(s, pid, e);
    }
    forall e | e in s && e.personaId == pid ensures e in ChecadoresPorPersona(s, pid) {
      EnPorPersona(s, pid, e);
    }
  }

  /** ObtenerUltimoChecadorPorPersona: `OrderByDescending(Fecha)
      .ThenByDescending(Hora).FirstOrDefault()`. Null (None) exactly when
      the person has no event; otherwise one of the person's events that is
      not earlier than any other of theirs. Among events at the same
      instant the store's order decides; this model takes the one stored
      last. */
  function Ultimo(s: seq<Checador>, pid: int): (r: Option<Checador>)
    ensures r.None? <==> SinRegistros(s, pid)
    ensures r.Some? ==> r.value in s && r.value.personaId == pid
    ensures r.Some? ==> forall i :: 0 <= i < |s| && s[i].personaId == pid ==> NoPosterior(s[i], r.value)
  {
    if s == [] then None
    else
      var init, e := s[..|s| - 1], s[|s| - 1];
      var previo := Ultimo(init, pid);
      assert forall i :: 0 <= i < |init| ==> s[i] == init[i];
      if e.personaId != pid then previo
      else if previo.None? || NoPosterior(previo.value, e) then Some(e)
      else previo
  }

  /** DeterminarTipoAccion: "Entrada" when the person has no event or the
      latest one is "Salida"; "Salida" for any other latest kind. */
  function TipoAccionSiguiente(s: seq<Checador>, pid: int): (r: string)
    ensures r == Entrada || r == Salida
  {
    var u := Ultimo(s, pid);
    if u.None? || u.value.tipoAccion == Salida then Entrada else Salida
  }

  /** The other kind. */
  function Opuesto(tipo: string): string {
    if tipo == Entrada then Salida else Entrada
  }

  /** When one event e of the person is strictly later than all of their
      other events, it is the latest one, and the next kind is decided by
      e alone: "Entrada" after "Salida", "Salida" after anything else. A
      person without events gets "Entrada". */
  lemma TipoAccionSiguienteCasos(s: seq<Checador>, pid: int, e: Checador)
    requires e in s && e.personaId == pid
    requires forall i :: 0 <= i < |s| && s[i].personaId == pid && s[i] != e ==> AntesDe(s[i], e.fecha, e.hora)
    ensures Ultimo(s, pid) == Some(e)
    ensures TipoAccionSiguiente(s, pid) == if e.tipoAccion == Salida then Entrada else Salida
  {
    var u := Ultimo(s, pid).value;
    var k :| 0 <= k < |s| && s[k] == u;
    var j :| 0 <= j < |s| && s[j] == e;
    assert NoPosterior(s[j], u);
  }

  lemma TipoAccionSiguienteSinRegistros(s: seq<Checador>, pid: int)
    requires SinRegistros(s, pid)
    ensures TipoAccionSiguiente(s, pid) == Entrada
  {
  }

  // ---------------------------------------------------------------------
  // Registration as a function of the table (for the lemmas)
  // ---------------------------------------------------------------------

  /** The event RegistrarChecador builds: the kind the rule gives before the
      append, date and time from one clock reading. */
  function NuevoChecador(s: seq<Checador>, id: int, pid: int, fecha: int, hora: HoraDelDia): (c: Checador)
  {
    Checador(id, TipoAccionSiguiente(s, pid), fecha, hora, pid)
  }

  /** The table after RegistrarChecador. */
  function Registrado(s: seq<Checador>, id: int, pid: int, fecha: int, hora: HoraDelDia): (r: seq<Checador>)
  {
    s + [NuevoChecador(s, id, pid, fecha, hora)]
  }

  /** The new event becomes the latest one of its person whenever the
      clock reading is later than all of their earlier events, so the next
      kind flips. */
  lemma {:induction false} AlternanciaTrasRegistro(s: seq<Checador>, id: int, pid: int, fecha: int, hora: HoraDelDia)
    requires TodosAntesDe(s, pid, fecha, hora)
    ensures Ultimo(Registrado(s, id, pid, fecha, hora), pid) == Some(NuevoChecador(s, id, pid, fecha, hora))
    ensures TipoAccionSiguiente(Registrado(s, id, pid, fecha, hora), pid) == Opuesto(TipoAccionSiguiente(s, pid))
  {
    var r := Registrado(s, id, pid, fecha, hora);
    assert r[..|r| - 1] == s;
  }

  /** Registering for one person changes neither the latest event nor the
      next kind of any other person. */
  lemma {:induction false} RegistroNoAfectaOtros(s: seq<Checador>, id: int, pid: int, fecha: int, hora: HoraDelDia, otro: int)
    requires otro != pid
    ensures Ultimo(Registrado(s, id, pid, fecha, hora), otro) == Ultimo(s, otro)
    ensures TipoAccionSiguiente(Registrado(s, id, pid, fecha, hora), otro) == TipoAccionSiguiente(s, otro)
  {
    var r := Registrado(s, id, pid, fecha, hora);
    assert r[..|r| - 1] == s;
  }

  /** A sorted list whose element e is strictly later than every other
      element ends with e. */
  lemma {:induction false} OrdenadaTerminaEn(l: seq<Checador>, e: Checador)
    requires Ordenado(l) && e in l
    requires forall x :: x in l && x != e ==> AntesDe(x, e.fecha, e.hora)
    ensures |l| > 0 && l[|l| - 1] == e
  {
    var k :| 0 <= k < |l| && l[k] == e;
    var x := l[|l| - 1];
    if k < |l| - 1 {
      assert NoPosterior(l[k], x);
      assert x != e ==> AntesDe(x, e.fecha, e.hora);
    }
  }

  /** Right after a registration whose clock reading is later than all of
      the person's events, the person's ordered list ends with the new
      event. */
  lemma {:induction false} RegistroEsElUltimoDeLaLista(s: seq<Checador>, id: int, pid: int, fecha: int, hora: HoraDelDia)
    requires TodosAntesDe(s, pid, fecha, hora)
    ensures var l := ChecadoresPorPersona(Registrado(s, id, pid, fecha, hora), pid);
      |l| > 0 && l[|l| - 1] == NuevoChecador(s, id, pid, fecha, hora)
  {
    var nuevo := NuevoChecador(s, id, pid, fecha, hora);
    var r := Registrado(s, id, pid, fecha, hora);
    var l := ChecadoresPorPersona(r, pid);
    assert r == s + [nuevo];
    assert nuevo in r;
    EnPorPersona(r, pid, nuevo);
    forall x | x in l && x != nuevo
      ensures AntesDe(x, nuevo.fecha, nuevo.hora)
    {
      DePorPersona(r, pid, x);
      assert x in s;
      var i :| 0 <= i < |s| && s[i] == x;
    }
    OrdenadaTerminaEn(l, nuevo);
  }

  /** Every element of the per-person list is one of the person's events. */
  lemma DePorPersona(s: seq<Checador>, pid: int, x: Checador)
    requires x in ChecadoresPorPersona(s, pid)
    ensures x in s && x.personaId == pid
  {
    assert x in multiset(ChecadoresPorPersona(s, pid));
    assert x in multiset(DePersona(s, pid));
  }

  /** Every event of the person is in the per-person list. */
  lemma EnPorPersona(s: seq<Checador>, pid: int, x: Checador)
    requires x in s && x.personaId == pid
    ensures x in ChecadoresPorPersona(s, pid)
  {
    assert x in multiset(s);
    assert x in multiset(ChecadoresPorPersona(s, pid));
  }

  /** `n` registrations for one person at the instants `instantes`, given
      as (fecha, hora) pairs, with identifiers id0, id0 + 1, ... */
  function RegistrarVarios(s: seq<Checador>, id0: int, pid: int, instantes: seq<(int, HoraDelDia)>): (r: seq<Checador>)
    ensures |r| == |s| + |instantes|
    decreases |instantes|
  {
    if instantes == [] then s
    else
      var n := |instantes|;
      var antes := RegistrarVarios(s, id0, pid, instantes[..n - 1]);
      Registrado(antes, id0 + n - 1, pid, instantes[n - 1].0, instantes[n - 1].1)
  }

  /** The last of n registrations is one RegistrarChecador on the table
      left by the first n - 1. */
  lemma RegistrarVariosUltimo(s: seq<Checador>, id0: int, pid: int, instantes: seq<(int, HoraDelDia)>)
    requires |instantes| > 0
    ensures var n := |instantes|;
      RegistrarVarios(s, id0, pid, instantes)
      == Registrado(RegistrarVarios(s, id0, pid, instantes[..n - 1]), id0 + n - 1, pid, instantes[n - 1].0, instantes[n - 1].1)
  {
  }

  /** Instants in strictly increasing (fecha, hora) order. */
  predicate Crecientes(instantes: seq<(int, HoraDelDia)>) {
    forall i, j :: 0 <= i < j < |instantes| ==>
      instantes[i].0 < instantes[j].0 || (instantes[i].0 == instantes[j].0 && instantes[i].1 < instantes[j].1)
  }

  /** The kind of the k-th registration in a strict alternation that starts
      with "Entrada". */
  function TipoAlterno(k: nat): string {
    if k % 2 == 0 then Entrada else Salida
  }

  /** The registrations append one event per instant, for the person, with
      consecutive identifiers, and leave the earlier rows alone. */
  lemma {:induction false} RegistrarVariosAnexa(s: seq<Checador>, id0: int, pid: int, instantes: seq<(int, HoraDelDia)>)
    ensures var r := RegistrarVarios(s, id0, pid, instantes);
      |r| == |s| + |instantes|
      && r[..|s|] == s
      && (forall i :: |s| <= i < |r| ==>
            r[i].id == id0 + (i - |s|) && r[i].personaId == pid
            && (r[i].fecha, r[i].hora) == instantes[i - |s|])
  {
    var n := |instantes|;
    if n > 0 {
      var previos := instantes[..n - 1];
      RegistrarVariosAnexa(s, id0, pid, previos);
      var antes := RegistrarVarios(s, id0, pid, previos);
      var r := RegistrarVarios(s, id0, pid, instantes);
      var nuevo := NuevoChecador(antes, id0 + n - 1, pid, instantes[n - 1].0, instantes[n - 1].1);
      assert r == antes + [nuevo];
      assert r[..|s|] == antes[..|s|];
      forall i | |s| <= i < |r|
        ensures r[i].id == id0 + (i - |s|) && r[i].personaId == pid
          && (r[i].fecha, r[i].hora) == instantes[i - |s|]
      {
        if i < |antes| {
          assert r[i] == antes[i];
          assert previos[i - |s|] == instantes[i - |s|];
        }
      }
    }
  }

  /** With increasing instants and no earlier events of the person, every
      event of the person after the first n - 1 registrations precedes the
      n-th instant. */
  lemma PreviosAntesDelUltimo(s: seq<Checador>, id0: int, pid: int, instantes: seq<(int, HoraDelDia)>)
    requires SinRegistros(s, pid)
    requires Crecientes(instantes) && |instantes| > 0
    ensures var n := |instantes|;
      TodosAntesDe(RegistrarVarios(s, id0, pid, instantes[..n - 1]), pid, instantes[n - 1].0, instantes[n - 1].1)
  {
    var n := |instantes|;
    var previos := instantes[..n - 1];
    var antes := RegistrarVarios(s, id0, pid, previos);
    RegistrarVariosAnexa(s, id0, pid, previos);
    forall i | 0 <= i < |antes| && antes[i].personaId == pid
      ensures AntesDe(antes[i], instantes[n - 1].0, instantes[n - 1].1)
    {
      if i >= |s| {
        assert previos[i - |s|] == instantes[i - |s|];
        assert (antes[i].fecha, antes[i].hora) == instantes[i - |s|];
      }
    }
  }

  /** Consecutive positions of the alternation have opposite kinds. */
  lemma TipoAlternoAlterna(k: nat)
    ensures TipoAlterno(k + 1) == Opuesto(TipoAlterno(k))
  {
    assert Entrada[0] != Salida[0];
    if k % 2 == 0 {
      assert (k + 1) % 2 == 1;
    } else {
      assert (k + 1) % 2 == 0;
    }
  }

  /** Registering at the first m instants yields a prefix of registering
      at all of them. */
  lemma {:induction false} RegistrarVariosPrefijo(s: seq<Checador>, id0: int, pid: int, instantes: seq<(int, HoraDelDia)>, m: nat)
    requires m <= |instantes|
    ensures RegistrarVarios(s, id0, pid, instantes)[..|s| + m] == RegistrarVarios(s, id0, pid, instantes[..m])
    decreases |instantes|
  {
    var n := |instantes|;
    if m < n {
      RegistrarVariosPrefijo(s, id0, pid, instantes[..n - 1], m);
      PasoPrefijo(s, id0, pid, instantes, m);
    } else {
      assert instantes[..m] == instantes;
    }
  }

  /** One step of RegistrarVariosPrefijo: a prefix of the first n - 1
      registrations is a prefix of all n. */
  lemma PasoPrefijo(s: seq<Checador>, id0: int, pid: int, instantes: seq<(int, HoraDelDia)>, m: nat)
    requires m < |instantes|
    requires var previos := instantes[..|instantes| - 1];
      RegistrarVarios(s, id0, pid, previos)[..|s| + m] == RegistrarVarios(s, id0, pid, previos[..m])
    ensures RegistrarVarios(s, id0, pid, instantes)[..|s| + m] == RegistrarVarios(s, id0, pid, instantes[..m])
  {
    var previos := instantes[..|instantes| - 1];
    assert previos[..m] == instantes[..m];
    var antes := RegistrarVarios(s, id0, pid, previos);
    var r := RegistrarVarios(s, id0, pid, instantes);
    RegistrarVariosUltimo(s, id0, pid, instantes);
    Listas.PrefijoDeAnexo(antes, r[|r| - 1], |s| + m);
  }

  /** A prefix of increasing instants is increasing. */
  lemma CrecientesPrefijo(instantes: seq<(int, HoraDelDia)>, m: nat)
    requires Crecientes(instantes) && m <= |instantes|
    ensures Crecientes(instantes[..m])
  {
    var p := instantes[..m];
    forall i, j | 0 <= i < j < |p|
      ensures p[i].0 < p[j].0 || (p[i].0 == p[j].0 && p[i].1 < p[j].1)
    {
      assert p[i] == instantes[i] && p[j] == instantes[j];
    }
  }

  /** One step of the alternation: if the next kind after the first n - 1
      registrations is the (n - 1)-th of the alternation, the next kind
      after all n is the n-th. */
  lemma {:induction false} PasoAlternancia(s: seq<Checador>, id0: int, pid: int, instantes: seq<(int, HoraDelDia)>)
    requires SinRegistros(s, pid)
    requires Crecientes(instantes) && |instantes| > 0
    requires var n := |instantes|;
      TipoAccionSiguiente(RegistrarVarios(s, id0, pid, instantes[..n - 1]), pid) == TipoAlterno(n - 1)
    ensures TipoAccionSiguiente(RegistrarVarios(s, id0, pid, instantes), pid) == TipoAlterno(|instantes|)
  {
    var n := |instantes|;
    var antes := RegistrarVarios(s, id0, pid, instantes[..n - 1]);
    var f, h := instantes[n - 1].0, instantes[n - 1].1;
    var r := RegistrarVarios(s, id0, pid, instantes);
    RegistrarVariosUltimo(s, id0, pid, instantes);
    PreviosAntesDelUltimo(s, id0, pid, instantes);
    AlternanciaTrasRegistro(antes, id0 + n - 1, pid, f, h);
    OpuestoDelAlterno(TipoAccionSiguiente(antes, pid), TipoAccionSiguiente(r, pid), n - 1);
  }

  /** The kind opposite to the k-th of the alternation is the (k + 1)-th. */
  lemma OpuestoDelAlterno(a: string, b: string, k: nat)
    requires a == TipoAlterno(k) && b == Opuesto(a)
    ensures b == TipoAlterno(k + 1)
  {
    TipoAlternoAlterna(k);
  }

  /** Alternation of the next kind: starting from a table where the
      person has no events, after registrations at increasing instants the
      next kind is "Entrada" after an even number of them and "Salida"
      after an odd number. */
  lemma {:induction false} AlternanciaDesdeVacio(s: seq<Checador>, id0: int, pid: int, instantes: seq<(int, HoraDelDia)>)
    requires SinRegistros(s, pid)
    requires Crecientes(instantes)
    ensures TipoAccionSiguiente(RegistrarVarios(s, id0, pid, instantes), pid) == TipoAlterno(|instantes|)
    decreases |instantes|
  {
    var n := |instantes|;
    if n == 0 {
      TipoAccionSiguienteSinRegistros(s, pid);
    } else {
      CrecientesPrefijo(instantes, n - 1);
      AlternanciaDesdeVacio(s, id0, pid, instantes[..n - 1]);
      PasoAlternancia(s, id0, pid, instantes);
    }
  }

  /** Alternation of the stored kinds: the events appended by successive
      registrations at increasing instants, starting with no events of the
      person, are Entrada, Salida, Entrada, ... */
  lemma TiposAlternos(s: seq<Checador>, id0: int, pid: int, instantes: seq<(int, HoraDelDia)>)
    requires SinRegistros(s, pid)
    requires Crecientes(instantes)
    ensures var r := RegistrarVarios(s, id0, pid, instantes);
      |r| == |s| + |instantes|
      && forall i :: |s| <= i < |r| ==> r[i].tipoAccion == TipoAlterno(i - |s|)
  {
    RegistrarVariosAnexa(s, id0, pid, instantes);
    var r := RegistrarVarios(s, id0, pid, instantes);
    forall i | |s| <= i < |r| ensures r[i].tipoAccion == TipoAlterno(i - |s|) {
      var k := i - |s|;
      RegistrarVariosPrefijo(s, id0, pid, instantes, k + 1);
      var hasta := instantes[..k + 1];
      assert hasta[..k] == instantes[..k];
      CrecientesPrefijo(instantes, k);
      AlternanciaDesdeVacio(s, id0, pid, instantes[..k]);
      RegistrarVariosAnexa(s, id0, pid, instantes[..k]);
      assert r[i] == RegistrarVarios(s, id0, pid, hasta)[i];
    }
  }

  // ---------------------------------------------------------------------
  // Writes that replace or remove by identifier (for the lemmas)
  // ---------------------------------------------------------------------

  /** No two rows share an identifier. */
  predicate IdsDistintos(s: seq<Checador>) {
    forall i, j :: 0 <= i < j < |s| ==> s[i].id != s[j].id
  }

  predicate TieneId(s: seq<Checador>, id: int) {
    exists i :: 0 <= i < |s| && s[i].id == id
  }

  /** ActualizarChecador: the row whose identifier matches is replaced. */
  function Reemplazado(s: seq<Checador>, c: Checador): (r: seq<Checador>)
    ensures |r| == |s|
    ensures forall i :: 0 <= i < |s| ==> r[i] == if s[i].id == c.id then c else s[i]
  {
    if s == [] then []
    else [if s[0].id == c.id then c else s[0]] + Reemplazado(s[1..], c)
  }

  /** The index of the first row with the identifier, if any. */
  function IndiceDe(s: seq<Checador>, id: int): (r: Option<nat>)
    ensures r.None? <==> !TieneId(s, id)
    ensures r.Some? ==> r.value < |s| && s[r.value].id == id
    ensures r.Some? ==> forall i :: 0 <= i < r.value ==> s[i].id != id
  {
    if s == [] then None
    else if s[0].id == id then Some(0)
    else
      var t := IndiceDe(s[1..], id);
      assert forall i :: 1 <= i < |s| ==> s[i] == s[1..][i - 1];
      if t.None? then None else Some(t.value + 1)
  }

  /** EliminarChecador: the row with the identifier is removed; without one
      the table is unchanged. */
  function Eliminado(s: seq<Checador>, id: int): (r: seq<Checador>)
  {
    match IndiceDe(s, id)
    case None => s
    case Some(k) => s[..k] + s[k + 1..]
  }

  /** Removal takes out exactly the row with that identifier and keeps the
      others in their order; with distinct identifiers no row with it is
      left. */
  lemma EliminadoCorrecto(s: seq<Checador>, id: int)
    ensures !TieneId(s, id) ==> Eliminado(s, id) == s
    ensures TieneId(s, id) ==> (|Eliminado(s, id)| == |s| - 1
      && exists k :: 0 <= k < |s| && s[k].id == id && Eliminado(s, id) == s[..k] + s[k + 1..])
    ensures IdsDistintos(s) ==> !TieneId(Eliminado(s, id), id) && IdsDistintos(Eliminado(s, id))
  {
    if TieneId(s, id) {
      var k := IndiceDe(s, id).value;
      var r := Eliminado(s, id);
      assert forall i :: 0 <= i < k ==> r[i] == s[i];
      assert forall i :: k <= i < |r| ==> r[i] == s[i + 1];
    }
  }

  /** Replacing keeps the length and every row with another identifier, and
      keeps identifiers distinct. */
  lemma ReemplazadoCorrecto(s: seq<Checador>, c: Checador)
    ensures !TieneId(s, c.id) ==> Reemplazado(s, c) == s
    ensures TieneId(s, c.id) ==> c in Reemplazado(s, c)
    ensures IdsDistintos(s) ==> IdsDistintos(Reemplazado(s, c))
  {
    if TieneId(s, c.id) {
      var i :| 0 <= i < |s| && s[i].id == c.id;
      assert Reemplazado(s, c)[i] == c;
    }
  }

  // ---------------------------------------------------------------------
  // The service: the table updated in place
  // ---------------------------------------------------------------------

  class ChecadorService {
    /** The Checadores table, in store order. */
    var checadores: seq<Checador>
    /** The identity the store gives the next inserted row. */
    var siguienteId: int

    ghost predicate Valid()
      reads this
    {
      IdsDistintos(checadores)
      && forall i :: 0 <= i < |checadores| ==> checadores[i].id < siguienteId
    }

    constructor ()
      ensures Valid() && checadores == []
    {
      checadores := [];
      siguienteId := 1;
    }

    /** AgregarChecador: appends the row; the store assigns its identity. */
    method AgregarChecador(c: Checador) returns (id: int)
      requires Valid()
      modifies this
      ensures Valid()
      ensures id == old(siguienteId) && siguienteId == id + 1
      ensures checadores == old(checadores) + [c.(id := id)]
    {
      id := siguienteId;
      checadores := checadores + [c.(id := id)];
      siguienteId := siguienteId + 1;
    }

    /** ActualizarChecador: writes the row with the same identifier. When
        there is none the store refuses the update (ok is false) and the
        table is unchanged. */
    method ActualizarChecador(c: Checador) returns (ok: bool)
      requires Valid()
      modifies this
      ensures Valid() && siguienteId == old(siguienteId)
      ensures ok == TieneId(old(checadores), c.id)
      ensures checadores == Reemplazado(old(checadores), c)
    {
      ok := IndiceDe(checadores, c.id).Some?;
      ReemplazadoCorrecto(checadores, c);
      checadores := Reemplazado(checadores, c);
    }

    /** EliminarChecador: removes the row with the identifier, or nothing. */
    method EliminarChecador(id: int)
      requires Valid()
      modifies this
      ensures Valid() && siguienteId == old(siguienteId)
      ensures checadores == Eliminado(old(checadores), id)
      ensures !TieneId(checadores, id)
    {
      EliminadoCorrecto(checadores, id);
      var k := IndiceDe(checadores, id);
      if k.Some? {
        ghost var r := Eliminado(checadores, id);
        assert forall x :: x in r ==> x in checadores;
        checadores := Eliminado(checadores, id);
      }
    }

    /** RegistrarChecador: evaluates the Entrada/Salida rule on the current
        table, stamps the event with one clock reading (fecha, hora) and
        appends it; returns the stored event. */
    method RegistrarChecador(pid: int, fecha: int, hora: HoraDelDia) returns (nuevo: Checador)
      requires Valid()
      modifies this
      ensures Valid()
      ensures nuevo == NuevoChecador(old(checadores), old(siguienteId), pid, fecha, hora)
      ensures checadores == Registrado(old(checadores), old(siguienteId), pid, fecha, hora)
      ensures siguienteId == old(siguienteId) + 1
    {
      var tipo := TipoAccionSiguiente(checadores, pid);
      var id := AgregarChecador(Checador(0, tipo, fecha, hora, pid));
      nuevo := checadores[|checadores| - 1];
    }
  }
}
