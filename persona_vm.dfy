/** The fingerprint-and-photo person form (ViewModels/PersonaViewModel.cs):
    four text fields, the fingerprint and photo bytes, the selected record
    and the listing, with the add / update / delete / clear commands and
    the random fingerprint generator. The record this form edits carries
    fingerprint and photo bytes; `Ficha` stands for it. The store is
    abstract (each command records the write it asks for, and the listing
    returned afterwards is a parameter), the random source is a sequence
    of draws, and Base64 is a function parameter. */
module PersonaVista {
  import opened Comun
  import PersonasVista

  /** The record the form edits. */
  datatype Ficha = Ficha(
    id: int,
    nombre: string,
    apellido: string,
    matricula: string,
    tipoPersona: string,
    huella: Option<seq<byte>>,
    foto: Option<seq<byte>>)

  /** A write asked of the store. */
  datatype Operacion = Alta(ficha: Ficha) | Cambio(ficha: Ficha) | Baja(ficha: Ficha)

  const PrefijoFoto: string := "data:image/png;base64,"

  /** Validar: the four text fields are not blank and both byte fields are
      set. */
  predicate Valida(nombre: Option<string>, apellido: Option<string>, matricula: Option<string>,
                   tipo: Option<string>, huella: Option<seq<byte>>, foto: Option<seq<byte>>)
  {
    !EsNuloOBlanco(nombre) && !EsNuloOBlanco(apellido) && !EsNuloOBlanco(matricula)
    && !EsNuloOBlanco(tipo) && huella.Some? && foto.Some?
  }

  /** This form accepts exactly what the directory form accepts, plus the
      two byte fields: both validations ask the same of the text fields. */
  lemma ValidaComoDirectorio(nombre: Option<string>, apellido: Option<string>, matricula: Option<string>,
                             tipo: Option<string>, huella: Option<seq<byte>>, foto: Option<seq<byte>>)
    ensures Valida(nombre, apellido, matricula, tipo, huella, foto) <==>
      PersonasVista.Validacion(nombre, apellido, matricula, tipo).None? && huella.Some? && foto.Some?
  {
  }

  /** The record Agregar hands to the store (id left to the store). */
  function NuevaFicha(nombre: string, apellido: string, matricula: string, tipo: string,
                      huella: Option<seq<byte>>, foto: Option<seq<byte>>): (f: Ficha)
    ensures f.huella == huella && f.foto == foto
  {
    Ficha(0, Recortar(nombre), Recortar(apellido), Recortar(matricula), Recortar(tipo), huella, foto)
  }

  /** The record Actualizar hands to the store: the selection with its
      six editable fields overwritten, its id kept. */
  function FichaEditada(f: Ficha, nombre: string, apellido: string, matricula: string, tipo: string,
                        huella: Option<seq<byte>>, foto: Option<seq<byte>>): (g: Ficha)
    ensures g == NuevaFicha(nombre, apellido, matricula, tipo, huella, foto).(id := f.id)
  {
    f.(nombre := Recortar(nombre), apellido := Recortar(apellido), matricula := Recortar(matricula),
       tipoPersona := Recortar(tipo), huella := huella, foto := foto)
  }

  /** A valid form hands the store clean text fields and both byte
      fields, whether it adds or edits. */
  lemma {:induction false} ValidaDaFichaCompleta(nombre: Option<string>, apellido: Option<string>,
                                                 matricula: Option<string>, tipo: Option<string>,
                                                 huella: Option<seq<byte>>, foto: Option<seq<byte>>, f: Ficha)
    requires Valida(nombre, apellido, matricula, tipo, huella, foto)
    ensures var g := NuevaFicha(nombre.value, apellido.value, matricula.value, tipo.value, huella, foto);
      PersonasVista.Limpio(g.nombre) && PersonasVista.Limpio(g.apellido)
      && PersonasVista.Limpio(g.matricula) && PersonasVista.Limpio(g.tipoPersona)
      && g.huella.Some? && g.foto.Some?
    ensures FichaEditada(f, nombre.value, apellido.value, matricula.value, tipo.value, huella, foto).id == f.id
  {
    PersonasVista.RecortarNoBlanco(nombre.value);
    PersonasVista.RecortarNoBlanco(apellido.value);
    PersonasVista.RecortarNoBlanco(matricula.value);
    PersonasVista.RecortarNoBlanco(tipo.value);
  }

  // ---------------------------------------------------------------------
  // The random fingerprint
  // ---------------------------------------------------------------------

  const LargoHuella: int := 256

  /** Draws taken by the loop: six for each of the 31 blocks it fills. */
  const SorteosPorHuella: int := 186

  /** Random.Next(min, max) bounds of the k-th draw: (0,255), (0,255),
      (0,200), (0,200), (0,360), (50,100), repeating. */
  function MinimoSorteo(k: int): int {
    if k % 6 == 5 then 50 else 0
  }

  function MaximoSorteo(k: int): int {
    var r := k % 6;
    if r < 2 then 255 else if r < 4 then 200 else if r == 4 then 360 else 100
  }

  /** Each draw lies in the range it was asked for. */
  predicate SorteosValidos(sorteos: seq<int>) {
    |sorteos| >= SorteosPorHuella
    && forall k :: 0 <= k < SorteosPorHuella ==> MinimoSorteo(k) <= sorteos[k] < MaximoSorteo(k)
  }

  /** Byte j of the fingerprint: blocks of eight starting below 248 get
      their first six bytes from the draws (cast to byte), the rest keep
      the NextBytes fill. */
  function ByteDeHuella(iniciales: seq<byte>, sorteos: seq<int>, j: int): byte
    requires |iniciales| == LargoHuella && SorteosValidos(sorteos) && 0 <= j < LargoHuella
  {
    if j < 248 && j % 8 < 6 then ComoByte(sorteos[6 * (j / 8) + j % 8]) else iniciales[j]
  }

  function HuellaGenerada(iniciales: seq<byte>, sorteos: seq<int>): (r: seq<byte>)
    requires |iniciales| == LargoHuella && SorteosValidos(sorteos)
    ensures |r| == LargoHuella
  {
    seq(LargoHuella, j requires 0 <= j < LargoHuella => ByteDeHuella(iniciales, sorteos, j))
  }

  /** The generated fingerprint has 256 bytes; in each block starting
      below 248, bytes 2 and 3 are below 200, byte 4 is the 0..359 draw
      cut to eight bits, byte 5 is in [50, 100), and bytes 6 and 7 keep the
      NextBytes fill; the last block, 248..255, is left as filled. */
  lemma {:induction false} HuellaAcotada(iniciales: seq<byte>, sorteos: seq<int>)
    requires |iniciales| == LargoHuella && SorteosValidos(sorteos)
    ensures var r := HuellaGenerada(iniciales, sorteos);
      (forall j :: 0 <= j < 248 && (j % 8 == 2 || j % 8 == 3) ==> r[j] < 200)
      && (forall j :: 0 <= j < 248 && j % 8 == 4 ==> r[j] as int == sorteos[6 * (j / 8) + 4] % 256)
      && (forall j :: 0 <= j < 248 && j % 8 == 5 ==> 50 <= r[j] < 100)
      && (forall j :: 0 <= j < 248 && j % 8 >= 6 ==> r[j] == iniciales[j])
      && r[248..] == iniciales[248..]
  {
    var r := HuellaGenerada(iniciales, sorteos);
    forall j | 0 <= j < 248
      ensures j % 8 < 6 ==> (r[j] as int == sorteos[6 * (j / 8) + j % 8]
                             || (j % 8 == 4 && r[j] as int == sorteos[6 * (j / 8) + 4] % 256))
      ensures j % 8 < 6 ==> MinimoSorteo(6 * (j / 8) + j % 8) <= sorteos[6 * (j / 8) + j % 8] < MaximoSorteo(6 * (j / 8) + j % 8)
      ensures j % 8 < 6 ==> (6 * (j / 8) + j % 8) % 6 == j % 8
    {
      if j % 8 < 6 {
        var k := 6 * (j / 8) + j % 8;
        assert 0 <= k < SorteosPorHuella;
        assert k % 6 == j % 8;
      }
    }
  }

  class PersonaViewModel {
    var personas: seq<Ficha>
    var personaSeleccionada: Option<Ficha>
    var nombre: Option<string>
    var apellido: Option<string>
    var matricula: Option<string>
    var tipoPersona: Option<string>
    var huella: Option<seq<byte>>
    var foto: Option<seq<byte>>
    /** The writes asked of the store so far, oldest first. */
    var operaciones: seq<Operacion>

    ghost function Estado(): (Option<Ficha>, seq<Ficha>, seq<Operacion>,
                              (Option<string>, Option<string>, Option<string>, Option<string>,
                               Option<seq<byte>>, Option<seq<byte>>))
      reads this
    {
      (personaSeleccionada, personas, operaciones,
       (nombre, apellido, matricula, tipoPersona, huella, foto))
    }

    /** The form as Limpiar leaves it: here the category is "" too. */
    ghost predicate EnBlancoFormulario()
      reads this
    {
      nombre == Some("") && apellido == Some("") && matricula == Some("") && tipoPersona == Some("")
      && huella.None? && foto.None? && personaSeleccionada.None?
    }

    /** Loads the listing and clears the form. */
    constructor (listado: seq<Ficha>)
      ensures personas == listado && operaciones == [] && EnBlancoFormulario()
    {
      personas := [];
      personaSeleccionada := None;
      nombre := None;
      apellido := None;
      matricula := None;
      tipoPersona := None;
      huella := None;
      foto := None;
      operaciones := [];
      new;
      CargarPersonas(listado);
      Limpiar();
    }

    /** CargarPersonas: cleared and refilled one record at a time. */
    method CargarPersonas(listado: seq<Ficha>)
      modifies this`personas
      ensures personas == listado
    {
      personas := [];
      for i := 0 to |listado|
        invariant personas == listado[..i]
      {
        personas := personas + [listado[i]];
      }
    }

    /** The PersonaSeleccionada setter: a different record is stored and
        its six fields copied into the form; null clears the form (Limpiar
        calls back with null, which then changes nothing). */
    method SetPersonaSeleccionada(valor: Option<Ficha>)
      modifies this
      decreases if personaSeleccionada.Some? then 1 else 0, 0
      ensures valor == old(personaSeleccionada) ==> unchanged(this)
      ensures personaSeleccionada == valor
      ensures valor != old(personaSeleccionada) && valor.Some? ==>
        nombre == Some(valor.value.nombre) && apellido == Some(valor.value.apellido)
        && matricula == Some(valor.value.matricula) && tipoPersona == Some(valor.value.tipoPersona)
        && huella == valor.value.huella && foto == valor.value.foto
      ensures valor != old(personaSeleccionada) && valor.None? ==> EnBlancoFormulario()
      ensures personas == old(personas) && operaciones == old(operaciones)
    {
      if personaSeleccionada != valor {
        personaSeleccionada := valor;
        if valor.Some? {
          nombre := Some(valor.value.nombre);
          apellido := Some(valor.value.apellido);
          matricula := Some(valor.value.matricula);
          tipoPersona := Some(valor.value.tipoPersona);
          huella := valor.value.huella;
          foto := valor.value.foto;
        } else {
          Limpiar();
        }
      }
    }

    /** Limpiar */
    method Limpiar()
      modifies this
      decreases if personaSeleccionada.Some? then 1 else 0, 1
      ensures EnBlancoFormulario()
      ensures personas == old(personas) && operaciones == old(operaciones)
    {
      nombre := Some("");
      apellido := Some("");
      matricula := Some("");
      tipoPersona := Some("");
      huella := None;
      foto := None;
      SetPersonaSeleccionada(None);
    }

    /** Validar */
    function Validar(): (ok: bool)
      reads this
      ensures ok ==> nombre.Some? && apellido.Some? && matricula.Some? && tipoPersona.Some?
      ensures ok <==> (PersonasVista.Validacion(nombre, apellido, matricula, tipoPersona).None?
                       && huella.Some? && foto.Some?)
    {
      ValidaComoDirectorio(nombre, apellido, matricula, tipoPersona, huella, foto);
      Valida(nombre, apellido, matricula, tipoPersona, huella, foto)
    }

    /** Agregar: nothing happens unless the form validates; then the new
        record is written, the listing reloaded and the form cleared. */
    method Agregar(listado: seq<Ficha>)
      modifies this
      ensures !old(Validar()) ==> unchanged(this)
      ensures old(Validar()) ==>
        operaciones == old(operaciones) + [Alta(NuevaFicha(old(nombre).value, old(apellido).value,
          old(matricula).value, old(tipoPersona).value, old(huella), old(foto)))]
        && personas == listado && EnBlancoFormulario()
    {
      if !Validar() {
        return;
      }
      var nueva := NuevaFicha(nombre.value, apellido.value, matricula.value, tipoPersona.value, huella, foto);
      operaciones := operaciones + [Alta(nueva)];
      CargarPersonas(listado);
      Limpiar();
    }

    /** Actualizar: nothing happens without a selection or when the form
        does not validate; otherwise the selection is overwritten with the
        form, written, the listing reloaded and the form cleared. */
    method Actualizar(listado: seq<Ficha>)
      modifies this
      ensures old(personaSeleccionada).None? || !old(Validar()) ==> unchanged(this)
      ensures old(personaSeleccionada).Some? && old(Validar()) ==>
        operaciones == old(operaciones) + [Cambio(FichaEditada(old(personaSeleccionada).value,
          old(nombre).value, old(apellido).value, old(matricula).value, old(tipoPersona).value,
          old(huella), old(foto)))]
        && personas == listado && EnBlancoFormulario()
    {
      if personaSeleccionada.None? || !Validar() {
        return;
      }
      var editada := FichaEditada(personaSeleccionada.value, nombre.value, apellido.value,
                                  matricula.value, tipoPersona.value, huella, foto);
      operaciones := operaciones + [Cambio(editada)];
      CargarPersonas(listado);
      Limpiar();
    }

    /** Eliminar: nothing happens without a selection; otherwise the
        selection is removed, the listing reloaded and the form cleared. */
    method Eliminar(listado: seq<Ficha>)
      modifies this
      ensures old(personaSeleccionada).None? ==> unchanged(this)
      ensures old(personaSeleccionada).Some? ==>
        operaciones == old(operaciones) + [Baja(old(personaSeleccionada).value)]
        && personas == listado && EnBlancoFormulario()
    {
      if personaSeleccionada.None? {
        return;
      }
      operaciones := operaciones + [Baja(personaSeleccionada.value)];
      CargarPersonas(listado);
      Limpiar();
    }

    /** TieneFoto: a photo with at least one byte. */
    function TieneFoto(): (b: bool)
      reads this
      ensures b <==> foto.Some? && foto.value != []
    {
      foto.Some? && |foto.value| > 0
    }

    /** FotoBase64: a PNG data URI of the photo, or null without one. */
    function FotoBase64(base64: seq<byte> -> string): (r: Option<string>)
      reads this
      ensures r.Some? <==> TieneFoto()
      ensures r.Some? ==> r.value == PrefijoFoto + base64(foto.value)
      ensures r.Some? ==> r.value[..|PrefijoFoto|] == PrefijoFoto
    {
      if TieneFoto() then Some(PrefijoFoto + base64(foto.value)) else None
    }

    /** HuellaTexto: the fingerprint in Base64, or "" without one. */
    function HuellaTexto(base64: seq<byte> -> string): (s: string)
      reads this
      ensures huella.None? ==> s == ""
      ensures huella.Some? ==> s == base64(huella.value)
    {
      if huella.Some? then base64(huella.value) else ""
    }

    /** GenerarHuellaAleatoria: a 256-byte array filled by NextBytes
        (`iniciales`) and then overwritten block by block from successive
        draws becomes the fingerprint. */
    method GenerarHuellaAleatoria(iniciales: seq<byte>, sorteos: seq<int>)
      requires |iniciales| == LargoHuella && SorteosValidos(sorteos)
      modifies this`huella
      ensures huella == Some(HuellaGenerada(iniciales, sorteos))
    {
      var datos := new byte[LargoHuella](j requires 0 <= j < LargoHuella => iniciales[j]);
      LlenarBloques(datos, iniciales, sorteos);
      huella := Some(datos[..]);
    }
  }

  /** Byte j of a block that starts at i lies at offset j - i. */
  lemma PosicionEnBloque(i: int, j: int)
    requires 0 <= i && i % 8 == 0 && i <= j < i + 8
    ensures j / 8 == i / 8 && j % 8 == j - i
  {
  }

  /** One pass of the loop body: bytes i..i+5 get draws k..k+5, each
      cast to byte; the other bytes keep their values. */
  method EscribirBloque(datos: array<byte>, i: int, sorteos: seq<int>, k: int)
    requires 0 <= i && i + 6 <= datos.Length && 0 <= k && k + 6 <= |sorteos|
    requires forall m :: k <= m < k + 6 ==> sorteos[m] >= 0
    modifies datos
    ensures forall j :: 0 <= j < datos.Length ==>
      datos[j] == (if i <= j < i + 6 then ComoByte(sorteos[k + (j - i)]) else old(datos[j]))
  {
    datos[i] := ComoByte(sorteos[k]);
    datos[i + 1] := ComoByte(sorteos[k + 1]);
    datos[i + 2] := ComoByte(sorteos[k + 2]);
    datos[i + 3] := ComoByte(sorteos[k + 3]);
    datos[i + 4] := ComoByte(sorteos[k + 4]);
    datos[i + 5] := ComoByte(sorteos[k + 5]);
  }

  /** The loop of GenerarHuellaAleatoria on the NextBytes-filled array:
      for i = 0, 8, ... while i + 8 < 256, bytes i..i+5 are overwritten
      in place from the next six draws. */
  method LlenarBloques(datos: array<byte>, iniciales: seq<byte>, sorteos: seq<int>)
    requires datos.Length == LargoHuella && datos[..] == iniciales && SorteosValidos(sorteos)
    modifies datos
    ensures datos[..] == HuellaGenerada(iniciales, sorteos)
  {
    var i, k := 0, 0;
    while i < datos.Length
      invariant 0 <= i <= LargoHuella && i % 8 == 0
      invariant k == 6 * (if i <= 248 then i / 8 else 31)
      invariant forall j :: 0 <= j < LargoHuella ==>
        datos[j] == (if j < i then ByteDeHuella(iniciales, sorteos, j) else iniciales[j])
    {
      if i + 8 < datos.Length {
        EscribirBloque(datos, i, sorteos, k);
        forall j | i <= j < i + 8
          ensures datos[j] == ByteDeHuella(iniciales, sorteos, j)
        {
          PosicionEnBloque(i, j);
        }
        k := k + 6;
      }
      i := i + 8;
    }
    assert datos[..] == HuellaGenerada(iniciales, sorteos);
  }
}
