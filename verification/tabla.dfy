/**
 * The `recursos` table as the view reaches it: row selection by one column
 * (`.eq(column, value)`), the one-row read `.single()`, insert and delete,
 * and the two-stage lookup that validates a scanned code.
 *
 * The table is a sequence of rows in the order the listing query returns
 * them, newest first; an insert therefore puts the new row in front.
 */
module Tabla {
  import opened Encuestas
  import opened Secuencias

  /** The columns the view filters on. */
  datatype Columna = Id | Url

  function Campo(e: Encuesta, c: Columna): string
  {
    match c
    case Id => e.id
    case Url => e.url
  }

  /** `.eq(c, v)`: the rows whose column `c` equals `v` exactly, in table order. */
  function Donde(tabla: seq<Encuesta>, c: Columna, v: string): (r: seq<Encuesta>)
    ensures forall e :: e in r ==> e in tabla && Campo(e, c) == v
  {
    Keep(tabla, e => Campo(e, c) == v)
  }

  /** Row `i` is the only row whose column `c` equals `v`. */
  ghost predicate UnicaEn(tabla: seq<Encuesta>, c: Columna, v: string, i: int)
  {
    0 <= i < |tabla| && Campo(tabla[i], c) == v &&
    forall j :: 0 <= j < |tabla| && Campo(tabla[j], c) == v ==> j == i
  }

  /** Exactly one matching row is exactly a selection of length one, and it holds that row. */
  lemma DondeUnica(tabla: seq<Encuesta>, c: Columna, v: string)
    ensures |Donde(tabla, c, v)| == 1 <==> exists i :: UnicaEn(tabla, c, v, i)
    ensures forall i :: UnicaEn(tabla, c, v, i) ==> Donde(tabla, c, v) == [tabla[i]]
  {
    var p := (e: Encuesta) => Campo(e, c) == v;
    forall i | UnicaEn(tabla, c, v, i)
      ensures Donde(tabla, c, v) == [tabla[i]]
    {
      KeepUnique(tabla, p, i);
    }
    if |Donde(tabla, c, v)| == 1 {
      var idx := KeepPositions(tabla, p);
      assert UnicaEn(tabla, c, v, idx[0]) by {
        forall j | 0 <= j < |tabla| && Campo(tabla[j], c) == v
          ensures j == idx[0]
        {
          assert j in idx;
        }
      }
    }
  }

  /**
   * `.eq(c, v).single()`: the row when exactly one row matches; no match or
   * several matches is an error, which the view reads as a miss.
   */
  function Buscar(tabla: seq<Encuesta>, c: Columna, v: string): (r: Option<Encuesta>)
    ensures r.Some? <==> exists i :: UnicaEn(tabla, c, v, i)
    ensures forall i :: UnicaEn(tabla, c, v, i) ==> r == Some(tabla[i])
  {
    DondeUnica(tabla, c, v);
    var filas := Donde(tabla, c, v);
    if |filas| == 1 then Some(filas[0]) else None
  }

  /** No two rows share an identifier. */
  ghost predicate IdsUnicos(tabla: seq<Encuesta>)
  {
    forall i, j :: 0 <= i < |tabla| && 0 <= j < |tabla| && tabla[i].id == tabla[j].id ==> i == j
  }

  /** `v` is the identifier of some row. */
  ghost predicate TieneId(tabla: seq<Encuesta>, v: string)
  {
    exists i :: 0 <= i < |tabla| && tabla[i].id == v
  }

  /** With unique identifiers, a row is the only one carrying its identifier. */
  lemma IdUnico(tabla: seq<Encuesta>, i: int)
    requires IdsUnicos(tabla) && 0 <= i < |tabla|
    ensures UnicaEn(tabla, Id, tabla[i].id, i)
  {
  }

  /** `.insert(e)`: the new row is the newest, so it comes first in listing order. */
  function Insertar(tabla: seq<Encuesta>, e: Encuesta): (r: seq<Encuesta>)
    ensures |r| == |tabla| + 1 && r[0] == e && r[1..] == tabla
  {
    [e] + tabla
  }

  /**
   * Inserting a row under an identifier the table does not hold keeps
   * identifiers unique, and the new row is then found by its identifier.
   */
  lemma InsertarHallable(tabla: seq<Encuesta>, e: Encuesta)
    requires IdsUnicos(tabla) && !TieneId(tabla, e.id)
    ensures IdsUnicos(Insertar(tabla, e))
    ensures Buscar(Insertar(tabla, e), Id, e.id) == Some(e)
  {
    var r := Insertar(tabla, e);
    assert forall k :: 1 <= k < |r| ==> r[k] == tabla[k - 1] && r[k].id != e.id;
    forall i, j | 0 <= i < |r| && 0 <= j < |r| && r[i].id == r[j].id
      ensures i == j
    {
      if i > 0 && j > 0 {
        assert tabla[i - 1].id == tabla[j - 1].id;
      }
    }
    IdUnico(r, 0);
  }

  /** `.delete().eq("id", id)`: every row with that identifier goes, the others stay in order. */
  function Eliminar(tabla: seq<Encuesta>, id: string): (r: seq<Encuesta>)
    ensures |r| <= |tabla|
    ensures forall e :: e in r ==> e in tabla && e.id != id
  {
    Keep(tabla, (e: Encuesta) => e.id != id)
  }

  /**
   * What a delete keeps: a row survives exactly when it was in the table under
   * another identifier, and the survivors keep their relative order.
   */
  lemma EliminarConserva(tabla: seq<Encuesta>, id: string) returns (idx: seq<nat>)
    ensures forall e :: e in Eliminar(tabla, id) <==> e in tabla && e.id != id
    ensures Increasing(idx, |tabla|) && |idx| == |Eliminar(tabla, id)|
    ensures forall k :: 0 <= k < |idx| ==> Eliminar(tabla, id)[k] == tabla[idx[k]]
    ensures forall j :: 0 <= j < |tabla| ==> (tabla[j].id != id <==> j in idx)
  {
    var p := (e: Encuesta) => e.id != id;
    forall e
      ensures e in Eliminar(tabla, id) <==> e in tabla && e.id != id
    {
      KeepMembership(tabla, p, e);
    }
    idx := KeepPositions(tabla, p);
  }

  /**
   * With unique identifiers, deleting an identifier that is present removes
   * exactly one row, deleting one that is absent removes none, and the
   * identifiers stay unique.
   */
  lemma EliminarUno(tabla: seq<Encuesta>, id: string)
    requires IdsUnicos(tabla)
    ensures IdsUnicos(Eliminar(tabla, id))
    ensures |Eliminar(tabla, id)| == if TieneId(tabla, id) then |tabla| - 1 else |tabla|
  {
    var r := Eliminar(tabla, id);
    var idx := EliminarConserva(tabla, id);
    forall k, m | 0 <= k < |r| && 0 <= m < |r| && r[k].id == r[m].id
      ensures k == m
    {
      assert tabla[idx[k]].id == tabla[idx[m]].id;
    }
    KeepSplit(tabla, (e: Encuesta) => Campo(e, Id) == id, (e: Encuesta) => e.id != id);
    DondeUnica(tabla, Id, id);
    if TieneId(tabla, id) {
      var i :| 0 <= i < |tabla| && tabla[i].id == id;
      IdUnico(tabla, i);
    } else {
      KeepNone(tabla, (e: Encuesta) => Campo(e, Id) == id);
    }
  }

  /** After a delete, no row carries the deleted identifier, so the lookup by identifier misses. */
  lemma EliminarIdFalla(tabla: seq<Encuesta>, id: string)
    ensures Buscar(Eliminar(tabla, id), Id, id) == None
  {
    var r := Eliminar(tabla, id);
    forall i | 0 <= i < |r|
      ensures !UnicaEn(r, Id, id, i)
    {
      assert r[i] in r;
    }
  }

  /**
   * The validation of a scanned text `texto`: the row found by identifier
   * when the identifier lookup hits, and otherwise the row found by URL.
   * Each lookup is a `.single()` read, so it hits only on exactly one row.
   */
  function Resolver(tabla: seq<Encuesta>, texto: string): (r: Option<Encuesta>)
    ensures r.Some? ==> r.value in tabla && (r.value.id == texto || r.value.url == texto)
    ensures forall i :: UnicaEn(tabla, Id, texto, i) ==> r == Some(tabla[i])
    ensures (forall i :: !UnicaEn(tabla, Id, texto, i)) ==>
      forall i :: UnicaEn(tabla, Url, texto, i) ==> r == Some(tabla[i])
    ensures r.None? <==>
      (forall i :: !UnicaEn(tabla, Id, texto, i)) && (forall i :: !UnicaEn(tabla, Url, texto, i))
  {
    var porId := Buscar(tabla, Id, texto);
    if porId.Some? then porId else Buscar(tabla, Url, texto)
  }

  /**
   * The validation of a scanned text when either `.single()` read may also
   * fail for a reason of its own (the network, the server): `porIdOk` and
   * `porUrlOk` say whether each read got an answer. A failed read is taken as
   * a miss, as the view does, so a failed identifier read falls through to the
   * URL read, and a failed URL read ends in "not found".
   */
  function Validar(tabla: seq<Encuesta>, texto: string, porIdOk: bool, porUrlOk: bool): (r: Option<Encuesta>)
    ensures porIdOk && porUrlOk ==> r == Resolver(tabla, texto)
    ensures r.Some? ==> r.value in tabla && (r.value.id == texto || r.value.url == texto)
    ensures porIdOk ==> forall i :: UnicaEn(tabla, Id, texto, i) ==> r == Some(tabla[i])
    ensures porUrlOk && (!porIdOk || forall i :: !UnicaEn(tabla, Id, texto, i)) ==>
      forall i :: UnicaEn(tabla, Url, texto, i) ==> r == Some(tabla[i])
    ensures r.None? <==>
      (!porIdOk || forall i :: !UnicaEn(tabla, Id, texto, i)) &&
      (!porUrlOk || forall i :: !UnicaEn(tabla, Url, texto, i))
  {
    var porId := if porIdOk then Buscar(tabla, Id, texto) else None;
    if porId.Some? then porId
    else if porUrlOk then Buscar(tabla, Url, texto)
    else None
  }

  /**
   * A failed URL read makes the code of a resource with a URL report "not
   * found" even though the resource is registered, because the identifier
   * read, which succeeds, finds no row with that identifier.
   */
  lemma FalloUrlNoEncuentra(tabla: seq<Encuesta>, i: int)
    requires 0 <= i < |tabla| && tabla[i].url != ""
    requires !TieneId(tabla, tabla[i].url)
    ensures Validar(tabla, Payload(tabla[i]), true, false) == None
  {
    forall k | 0 <= k < |tabla|
      ensures !UnicaEn(tabla, Id, tabla[i].url, k)
    {
    }
  }

  /**
   * A failed identifier read lets the URL read decide: a row whose URL is
   * the scanned text and is carried by no other row is shown, even when
   * another row has that text as its identifier and would have won.
   */
  lemma FalloIdUsaUrl(tabla: seq<Encuesta>, texto: string, j: int)
    requires UnicaEn(tabla, Url, texto, j)
    ensures Validar(tabla, texto, false, true) == Some(tabla[j])
  {
  }

  /**
   * A scanned code resolves back to the resource it was made for. With unique
   * identifiers, a resource without URL is found by its identifier; one with a
   * URL is found through the URL fallback, provided no row has that URL as its
   * identifier and no other row shares the URL.
   */
  lemma PayloadResuelve(tabla: seq<Encuesta>, i: int)
    requires IdsUnicos(tabla) && 0 <= i < |tabla|
    requires tabla[i].url != "" ==>
      !TieneId(tabla, tabla[i].url) &&
      forall j :: 0 <= j < |tabla| && tabla[j].url == tabla[i].url ==> j == i
    ensures Resolver(tabla, Payload(tabla[i])) == Some(tabla[i])
    ensures tabla[i].url != "" ==> Buscar(tabla, Id, Payload(tabla[i])) == None
  {
    if tabla[i].url == "" {
      IdUnico(tabla, i);
    } else {
      assert UnicaEn(tabla, Url, tabla[i].url, i);
      forall k | 0 <= k < |tabla|
        ensures !UnicaEn(tabla, Id, tabla[i].url, k)
      {
      }
    }
  }

  /**
   * Two rows that share a URL make that URL unresolvable when no row has it as
   * its identifier: the `.single()` read by URL sees two rows and fails, so
   * neither resource's code validates.
   */
  lemma UrlCompartidaFalla(tabla: seq<Encuesta>, i: int, j: int)
    requires 0 <= i < |tabla| && 0 <= j < |tabla| && i != j
    requires tabla[i].url == tabla[j].url
    requires !TieneId(tabla, tabla[i].url)
    ensures Resolver(tabla, tabla[i].url) == None
  {
    var u := tabla[i].url;
    forall k | 0 <= k < |tabla|
      ensures !UnicaEn(tabla, Id, u, k) && !UnicaEn(tabla, Url, u, k)
    {
    }
  }

  /**
   * Once a resource is deleted, validating its former identifier can only
   * succeed through the URL fallback, and fails when no remaining row has that
   * text as its URL.
   */
  lemma EliminarLuegoValidar(tabla: seq<Encuesta>, id: string)
    ensures Resolver(Eliminar(tabla, id), id) == Buscar(Eliminar(tabla, id), Url, id)
    ensures (forall e :: e in tabla ==> e.url != id) ==> Resolver(Eliminar(tabla, id), id) == None
  {
    EliminarIdFalla(tabla, id);
    var r := Eliminar(tabla, id);
    if forall e :: e in tabla ==> e.url != id {
      forall k | 0 <= k < |r|
        ensures !UnicaEn(r, Url, id, k)
      {
        assert r[k] in r;
      }
    }
  }
}
