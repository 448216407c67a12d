/**
 * The search box over the loaded resources: a case-insensitive substring
 * match on the name, the description and the URL.
 */
module Busqueda {
  import opened Encuestas
  import opened Texto
  import opened Secuencias

  /**
   * Whether resource `e` is shown for the query `busqueda`: every resource
   * when the lower-cased query is empty, and otherwise one whose lower-cased
   * name, description or URL contains the lower-cased query.
   */
  predicate Coincide(e: Encuesta, busqueda: string)
    ensures busqueda == "" ==> Coincide(e, busqueda)
    ensures e.nombre == busqueda ==> Coincide(e, busqueda)
  {
    var texto := Lower(busqueda);
    texto == "" ||
    Includes(Lower(e.nombre), texto) ||
    Includes(Lower(e.descripcion), texto) ||
    Includes(Lower(e.url), texto)
  }

  /**
   * The match ignores case on both sides: lower-casing the query, or the
   * name, description and URL, does not change which resources are shown;
   * and the identifier is never searched.
   */
  lemma CoincideSinMayusculas(e: Encuesta, busqueda: string)
    ensures Coincide(e, busqueda) == Coincide(e, Lower(busqueda))
    ensures Coincide(e, busqueda) == Coincide(e.(id := ""), busqueda)
    ensures Coincide(e, busqueda) ==
      Coincide(e.(nombre := Lower(e.nombre), descripcion := Lower(e.descripcion), url := Lower(e.url)), busqueda)
  {
    LowerIdempotent(busqueda);
    LowerIdempotent(e.nombre);
    LowerIdempotent(e.descripcion);
    LowerIdempotent(e.url);
  }

  /** `encuestasFiltradas`: the loaded resources the query selects, in list order. */
  function Filtrar(encuestas: seq<Encuesta>, busqueda: string): (r: seq<Encuesta>)
    ensures |r| <= |encuestas|
    ensures forall e :: e in r ==> e in encuestas && Coincide(e, busqueda)
  {
    Keep(encuestas, e => Coincide(e, busqueda))
  }

  /** An empty query keeps the whole list, in its order. */
  lemma FiltrarVacia(encuestas: seq<Encuesta>)
    ensures Filtrar(encuestas, "") == encuestas
  {
    KeepAll(encuestas, e => Coincide(e, ""));
  }

  /**
   * For a non-empty query, matching means that the lower-cased query occurs
   * somewhere in the lower-cased name, description or URL.
   */
  lemma CoincideOcurre(e: Encuesta, busqueda: string)
    requires busqueda != ""
    ensures Coincide(e, busqueda) <==>
      (exists i :: OccursAt(Lower(e.nombre), Lower(busqueda), i)) ||
      (exists i :: OccursAt(Lower(e.descripcion), Lower(busqueda), i)) ||
      (exists i :: OccursAt(Lower(e.url), Lower(busqueda), i))
  {
    var texto := Lower(busqueda);
    assert texto != "";
    IncludesAt(Lower(e.nombre), texto);
    IncludesAt(Lower(e.descripcion), texto);
    IncludesAt(Lower(e.url), texto);
  }

  /** A resource is shown exactly when it is loaded and matches the query. */
  lemma FiltrarMiembro(encuestas: seq<Encuesta>, busqueda: string, e: Encuesta)
    ensures e in Filtrar(encuestas, busqueda) <==> e in encuestas && Coincide(e, busqueda)
  {
    KeepMembership(encuestas, e => Coincide(e, busqueda), e);
  }

  /**
   * The filtered list is an order-preserving subsequence of the loaded list
   * that keeps exactly the positions whose resource matches: the k-th shown
   * resource is the one at position `idx[k]`, and the positions increase.
   */
  lemma FiltrarSubsecuencia(encuestas: seq<Encuesta>, busqueda: string) returns (idx: seq<nat>)
    ensures Increasing(idx, |encuestas|)
    ensures |idx| == |Filtrar(encuestas, busqueda)|
    ensures forall k :: 0 <= k < |idx| ==> Filtrar(encuestas, busqueda)[k] == encuestas[idx[k]]
    ensures forall j :: 0 <= j < |encuestas| ==> (Coincide(encuestas[j], busqueda) <==> j in idx)
  {
    idx := KeepPositions(encuestas, e => Coincide(e, busqueda));
  }
}
