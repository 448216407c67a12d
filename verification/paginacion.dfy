/**
 * Pagination of the filtered list: six resources per page, pages numbered
 * from 1, and a page is a slice of the list with the clamping that
 * `Array.prototype.slice` applies.
 */
module Paginacion {

  /** `ENCUESTAS_POR_PAGINA` */
  const PorPagina: nat := 6

  /** `Math.ceil(n / d)` for a non-negative `n` and a positive `d`. */
  function CeilDiv(n: nat, d: nat): (q: nat)
    requires d > 0
  {
    (n + d - 1) / d
  }

  /**
   * `totalPaginas` for `n` filtered resources: `Math.max(1, Math.ceil(n / 6))`.
   * There is always at least one page; with resources, it is the least number
   * of six-item pages that holds them all.
   */
  function TotalPaginas(n: nat): (t: nat)
    ensures t >= 1
    ensures n == 0 ==> t == 1
    ensures n > 0 ==> (t - 1) * PorPagina < n <= t * PorPagina
  {
    var c := CeilDiv(n, PorPagina);
    if c < 1 then 1 else c
  }

  function Min(a: int, b: int): int
  {
    if a <= b then a else b
  }

  /**
   * `l.slice(inicio, fin)` for non-negative bounds: the bounds are clamped to
   * the length of `l`, and an end before the start gives the empty list.
   */
  function Slice<T>(l: seq<T>, inicio: nat, fin: nat): (r: seq<T>)
    ensures |r| <= |l|
    ensures inicio >= |l| || fin <= inicio ==> r == []
    ensures inicio < fin ==> |r| == Min(fin, |l|) - Min(inicio, |l|)
    ensures forall k :: 0 <= k < |r| ==> inicio + k < |l| && r[k] == l[inicio + k]
  {
    var lo := Min(inicio, |l|);
    var hi := Min(fin, |l|);
    if hi <= lo then [] else l[lo..hi]
  }

  /**
   * `encuestasPaginadas` for page `pagina` (numbered from 1): the items from
   * position `(pagina - 1) * 6` on, at most six of them.
   */
  function Pagina<T>(l: seq<T>, pagina: int): (r: seq<T>)
    requires pagina >= 1
    ensures |r| <= PorPagina
    ensures forall k :: 0 <= k < |r| ==>
      (pagina - 1) * PorPagina + k < |l| && r[k] == l[(pagina - 1) * PorPagina + k]
    ensures pagina <= TotalPaginas(|l|) && |l| > 0 ==> r != []
    ensures pagina < TotalPaginas(|l|) ==> |r| == PorPagina
    ensures pagina > TotalPaginas(|l|) ==> r == []
  {
    var inicio := (pagina - 1) * PorPagina;
    Slice(l, inicio, inicio + PorPagina)
  }

  /** Pages 1 to `k` of `l`, one after the other. */
  function Paginas<T>(l: seq<T>, k: nat): seq<T>
  {
    if k == 0 then [] else Paginas(l, k - 1) + Pagina(l, k)
  }

  /** The first `k` pages together are the first `6 * k` items of the list, in order. */
  lemma {:induction false} PaginasPrefijo<T>(l: seq<T>, k: nat)
    ensures Paginas(l, k) == l[..Min(k * PorPagina, |l|)]
  {
    if k > 0 {
      PaginasPrefijo(l, k - 1);
      var lo := Min((k - 1) * PorPagina, |l|);
      var hi := Min(k * PorPagina, |l|);
      assert Pagina(l, k) == l[lo..hi];
      assert l[..lo] + l[lo..hi] == l[..hi];
    }
  }

  /**
   * Pages 1 to `totalPaginas` together are exactly the filtered list: every
   * resource appears on one page, once, and in list order.
   */
  lemma PaginasCubren<T>(l: seq<T>)
    ensures Paginas(l, TotalPaginas(|l|)) == l
  {
    PaginasPrefijo(l, TotalPaginas(|l|));
  }

  /** The item at position `j` is on page `j / 6 + 1`, at place `j % 6`, and that page exists. */
  lemma PaginaDe<T>(l: seq<T>, j: nat)
    requires j < |l|
    ensures 1 <= j / PorPagina + 1 <= TotalPaginas(|l|)
    ensures j % PorPagina < |Pagina(l, j / PorPagina + 1)|
    ensures Pagina(l, j / PorPagina + 1)[j % PorPagina] == l[j]
  {
    var p := j / PorPagina + 1;
    assert (p - 1) * PorPagina + j % PorPagina == j;
  }
}
