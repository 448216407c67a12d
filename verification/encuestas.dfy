/**
 * A registered resource ("encuesta"): one row of the `recursos` table, and
 * the payload that its scannable code carries.
 */
module Encuestas {

  /** `null` or a value, as the view state `encuestaActual` is. */
  datatype Option<T> = None | Some(value: T)

  /**
   * One row of the `recursos` table, as the view's own insert writes it: the
   * name, description and URL are always strings, the URL being empty when
   * the form left it blank.
   */
  datatype Encuesta = Encuesta(id: string, nombre: string, descripcion: string, url: string)

  /**
   * The text encoded into a resource's code and offered for copying: the
   * external URL when there is one, and otherwise the identifier.
   */
  function Payload(e: Encuesta): (p: string)
    ensures p == e.url || p == e.id
    ensures p == e.id <==> e.url == "" || e.url == e.id
    ensures p != "" <==> e.url != "" || e.id != ""
  {
    if e.url != "" then e.url else e.id
  }
}
