/**
 * The view state of the application component and the handlers that change
 * it: loading, creating and deleting resources, searching and paging the
 * list, validating a scanned code, and toggling the theme.
 *
 * The remote `recursos` table is held as the field `tabla`; the outcome of
 * each remote call (and of the confirmation dialog) is a parameter of the
 * handler that makes it. Every handler runs to completion before the next.
 */
module Aplicacion {
  import opened Encuestas
  import opened Busqueda
  import opened Paginacion
  import opened Tabla
  import Tema

  const Buscando := "Buscando encuesta..."
  const NoEncontrada := "QR no válido o encuesta no encontrada."
  const Valida := "Encuesta válida: "

  /** What `crearEncuesta` ends with: an alert for an empty title or a store error, or a created row. */
  datatype Creacion = TituloObligatorio | ErrorAlCrear | Creada

  /** What `eliminarEncuesta` ends with: declined, a store error, or a deleted row. */
  datatype Eliminacion = Cancelada | ErrorAlEliminar | Eliminada

  class App {
    /** Rows of the remote table, newest first. */
    var tabla: seq<Encuesta>
    /** Identifiers the store has handed out; it never hands one out twice. */
    ghost var usados: set<string>

    var encuestas: seq<Encuesta>
    var nuevoTitulo: string
    var nuevaDescripcion: string
    var nuevaUrl: string
    var busqueda: string
    var pagina: int
    var qrEscaneado: string
    var mensajeValidacion: string
    var encuestaActual: Option<Encuesta>
    var theme: string

    ghost predicate Valid()
      reads this
    {
      pagina >= 1 &&
      Tema.Valido(theme) &&
      IdsUnicos(tabla) &&
      forall i :: 0 <= i < |tabla| ==> tabla[i].id != "" && tabla[i].id in usados
    }

    /** `encuestasFiltradas` */
    function Filtradas(): (r: seq<Encuesta>)
      reads this
      ensures |r| <= |encuestas|
      ensures forall e :: e in r ==> e in encuestas && Coincide(e, busqueda)
    {
      Filtrar(encuestas, busqueda)
    }

    /** `totalPaginas` */
    function Total(): (t: nat)
      reads this
      ensures t >= 1
      ensures |Filtradas()| > 0 ==> (t - 1) * PorPagina < |Filtradas()| <= t * PorPagina
    {
      TotalPaginas(|Filtradas()|)
    }

    /** `encuestasPaginadas` */
    function Paginadas(): (r: seq<Encuesta>)
      reads this
      requires Valid()
      ensures |r| <= PorPagina
      ensures forall k :: 0 <= k < |r| ==>
        (pagina - 1) * PorPagina + k < |Filtradas()| && r[k] == Filtradas()[(pagina - 1) * PorPagina + k]
    {
      Pagina(Filtradas(), pagina)
    }

    /**
     * The state on mounting: empty lists and form, page 1, no scan, and the
     * theme taken from the stored value.
     */
    constructor (tabla0: seq<Encuesta>, ghost usados0: set<string>, guardado: Option<string>)
      requires IdsUnicos(tabla0)
      requires forall i :: 0 <= i < |tabla0| ==> tabla0[i].id != "" && tabla0[i].id in usados0
      ensures Valid()
      ensures tabla == tabla0 && usados == usados0
      ensures encuestas == [] && busqueda == "" && pagina == 1
      ensures nuevoTitulo == "" && nuevaDescripcion == "" && nuevaUrl == ""
      ensures qrEscaneado == "" && mensajeValidacion == "" && encuestaActual == None
      ensures theme == Tema.Inicial(guardado)
    {
      tabla, usados := tabla0, usados0;
      encuestas := [];
      nuevoTitulo, nuevaDescripcion, nuevaUrl := "", "", "";
      busqueda := "";
      pagina := 1;
      qrEscaneado, mensajeValidacion := "", "";
      encuestaActual := None;
      theme := Tema.Inicial(guardado);
    }

    /**
     * `cargarEncuestas`: on success the list becomes the table's rows in
     * listing order, and page 1 is shown again when the list length changed;
     * on failure nothing changes.
     */
    method CargarEncuestas(cargaOk: bool)
      requires Valid()
      modifies this`encuestas, this`pagina
      ensures Valid()
      ensures encuestas == if cargaOk then tabla else old(encuestas)
      ensures pagina == if cargaOk && |tabla| != |old(encuestas)| then 1 else old(pagina)
    {
      if cargaOk {
        if |tabla| != |encuestas| {
          pagina := 1;
        }
        encuestas := tabla;
      }
    }

    /**
     * `crearEncuesta`: an empty title is refused and nothing changes; a failed
     * insert changes nothing either; otherwise one row with the form's three
     * fields is inserted under the identifier the store assigns, the form is
     * cleared and the list is reloaded.
     */
    method CrearEncuesta(insertOk: bool, nuevoId: string, cargaOk: bool) returns (res: Creacion)
      requires Valid()
      requires insertOk ==> nuevoId != "" && nuevoId !in usados
      modifies this`tabla, this`usados, this`nuevoTitulo, this`nuevaDescripcion, this`nuevaUrl
      modifies this`encuestas, this`pagina
      ensures Valid()
      ensures res == (if old(nuevoTitulo) == "" then TituloObligatorio
                      else if !insertOk then ErrorAlCrear else Creada)
      ensures res != Creada ==>
        tabla == old(tabla) && usados == old(usados) &&
        nuevoTitulo == old(nuevoTitulo) && nuevaDescripcion == old(nuevaDescripcion) &&
        nuevaUrl == old(nuevaUrl) && encuestas == old(encuestas) && pagina == old(pagina)
      ensures res == Creada ==>
        tabla == Insertar(old(tabla), Encuesta(nuevoId, old(nuevoTitulo), old(nuevaDescripcion), old(nuevaUrl))) &&
        usados == old(usados) + {nuevoId} &&
        nuevoTitulo == "" && nuevaDescripcion == "" && nuevaUrl == "" &&
        encuestas == (if cargaOk then tabla else old(encuestas))
      ensures res == Creada ==>
        pagina == if cargaOk && |tabla| != |old(encuestas)| then 1 else old(pagina)
      ensures res == Creada ==> Buscar(tabla, Id, nuevoId).Some?
    {
      if nuevoTitulo == "" {
        return TituloObligatorio;
      }
      if !insertOk {
        return ErrorAlCrear;
      }
      var fila := Encuesta(nuevoId, nuevoTitulo, nuevaDescripcion, nuevaUrl);
      InsertarHallable(tabla, fila);
      tabla := Insertar(tabla, fila);
      usados := usados + {nuevoId};
      nuevoTitulo, nuevaDescripcion, nuevaUrl := "", "", "";
      CargarEncuestas(cargaOk);
      res := Creada;
    }

    /**
     * `eliminarEncuesta`: a declined confirmation or a failed delete changes
     * nothing; otherwise every row with identifier `id` is removed, the other
     * rows stay in order, and the list is reloaded.
     */
    method EliminarEncuesta(id: string, confirmado: bool, borradoOk: bool, cargaOk: bool)
      returns (res: Eliminacion)
      requires Valid()
      modifies this`tabla, this`encuestas, this`pagina
      ensures Valid()
      ensures res == (if !confirmado then Cancelada else if !borradoOk then ErrorAlEliminar else Eliminada)
      ensures res != Eliminada ==>
        tabla == old(tabla) && encuestas == old(encuestas) && pagina == old(pagina)
      ensures res == Eliminada ==>
        tabla == Eliminar(old(tabla), id) &&
        encuestas == (if cargaOk then tabla else old(encuestas))
      ensures res == Eliminada ==>
        pagina == if cargaOk && |tabla| != |old(encuestas)| then 1 else old(pagina)
      ensures res == Eliminada ==> Buscar(tabla, Id, id) == None
    {
      if !confirmado {
        return Cancelada;
      }
      if !borradoOk {
        return ErrorAlEliminar;
      }
      EliminarUno(tabla, id);
      EliminarIdFalla(tabla, id);
      ghost var antes := tabla;
      tabla := Eliminar(tabla, id);
      forall i | 0 <= i < |tabla|
        ensures tabla[i].id != "" && tabla[i].id in usados
      {
        assert tabla[i] in antes;
      }
      CargarEncuestas(cargaOk);
      res := Eliminada;
    }

    /** Typing in the search box: a different query shows page 1 again. */
    method CambiarBusqueda(q: string)
      requires Valid()
      modifies this`busqueda, this`pagina
      ensures Valid()
      ensures busqueda == q
      ensures pagina == if q != old(busqueda) then 1 else old(pagina)
    {
      if q != busqueda {
        pagina := 1;
      }
      busqueda := q;
    }

    /** `cambiarPagina`: a page outside 1..totalPaginas is ignored. */
    method CambiarPagina(nuevaPagina: int)
      requires Valid()
      modifies this`pagina
      ensures Valid()
      ensures pagina == if nuevaPagina < 1 || nuevaPagina > Total() then old(pagina) else nuevaPagina
      ensures 1 <= nuevaPagina <= Total() ==> Paginadas() != [] || Filtradas() == []
    {
      if nuevaPagina < 1 || nuevaPagina > Total() {
        return;
      }
      pagina := nuevaPagina;
    }

    /**
     * `validarEncuesta`: clears the current resource, tries the identifier
     * read, falls back to the URL read only when it misses or fails, and
     * reports the resource found or that none was found. `porIdOk` and
     * `porUrlOk` say whether each read got an answer from the store; a failed
     * read counts as a miss. The table is only read.
     */
    method ValidarEncuesta(textoQR: string, porIdOk: bool, porUrlOk: bool)
      requires Valid()
      modifies this`mensajeValidacion, this`encuestaActual
      ensures Valid()
      ensures encuestaActual == Validar(tabla, textoQR, porIdOk, porUrlOk)
      ensures porIdOk && porUrlOk ==> encuestaActual == Resolver(tabla, textoQR)
      ensures mensajeValidacion ==
        if encuestaActual.None? then NoEncontrada else Valida + encuestaActual.value.nombre
    {
      mensajeValidacion := Buscando;
      encuestaActual := None;

      var data := if porIdOk then Buscar(tabla, Id, textoQR) else None;
      if data.None? {
        var dataUrl := if porUrlOk then Buscar(tabla, Url, textoQR) else None;
        if dataUrl.None? {
          mensajeValidacion := NoEncontrada;
          return;
        }
        data := dataUrl;
      }

      encuestaActual := data;
      mensajeValidacion := Valida + data.value.nombre;
    }

    /** `onScanSuccess`: records the decoded text and validates it. */
    method AlEscanear(decodedText: string, porIdOk: bool, porUrlOk: bool)
      requires Valid()
      modifies this`qrEscaneado, this`mensajeValidacion, this`encuestaActual
      ensures Valid()
      ensures qrEscaneado == decodedText
      ensures encuestaActual == Validar(tabla, decodedText, porIdOk, porUrlOk)
      ensures mensajeValidacion ==
        if encuestaActual.None? then NoEncontrada else Valida + encuestaActual.value.nombre
    {
      qrEscaneado := decodedText;
      ValidarEncuesta(decodedText, porIdOk, porUrlOk);
    }

    /** `toggleTheme` */
    method ToggleTheme()
      requires Valid()
      modifies this`theme
      ensures Valid()
      ensures theme == Tema.Alternar(old(theme)) && theme != old(theme)
    {
      theme := Tema.Alternar(theme);
    }
  }
}
