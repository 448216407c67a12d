# Registry of surveys with scannable codes — Dafny model

The application registers surveys ("encuestas": a name, a description and an
optional external URL, each row of the `recursos` table identified by a
store-assigned `id`), shows each one with a scannable code, and validates a
scanned code against the registry. This project models the logic of the single
component file `src/App.jsx`:

- the code payload of a resource (`url || id`);
- the validation of a scanned text: a `.single()` lookup by `id`, then by `url`
  only when the first misses, and the message and current resource it leaves;
- the search box filter (case-insensitive substring match on name, description
  and URL), `totalPaginas`, the six-item page slice and `cambiarPagina`;
- `crearEncuesta`, `eliminarEncuesta` and `cargarEncuestas`, with the page
  reset to 1 when the query or the list length changes;
- the theme toggle and the choice of the initial theme.

Layout, one module per file:

| file | module | contents |
|---|---|---|
| `secuencias.dfy` | `Secuencias` | order-preserving selection `Keep`, the shape of `Array.filter` and of a `.eq(column, value)` row selection, with its index characterisation |
| `encuestas.dfy` | `Encuestas` | the row datatype, `Option`, the payload |
| `texto.dfy` | `Texto` | `toLowerCase` (ASCII) and `includes` |
| `busqueda.dfy` | `Busqueda` | the search filter |
| `paginacion.dfy` | `Paginacion` | page count, page slice, coverage of the list by the pages |
| `tabla.dfy` | `Tabla` | the table: selection, `.single()`, insert, delete, and the two-stage validation `Resolver` |
| `tema.dfy` | `Tema` | the theme values |
| `aplicacion.dfy` | `Aplicacion` | class `App`: the component's state and its handlers |

The remote table is the field `App.tabla`, kept in listing order (newest
first), so an insert puts the new row in front. Each remote call's outcome
(insert, delete, load and each of the two validation reads succeed or fail,
the identifier the store assigns)
and the confirmation dialog's answer are parameters of the handler that makes
the call. The identifiers the store has handed out are the field
`App.usados`; the store never hands one out twice, which the model takes as
the precondition of `CrearEncuesta`. Every row is taken to have been created
by the application itself: its insert always sends `nombre`, `descripcion` and
`url` as strings (`url` is the empty string when the form's URL field is left
blank), so no column the model reads is ever `null`.

Where the system's design description and the code disagree, the model
follows the code:

- The design says that when several resources share a URL the first one the
  store returns wins. The code reads the URL lookup with `.single()`, which
  fails unless exactly one row matches, so a shared URL resolves to nothing
  (`Tabla.UrlCompartidaFalla`).
- The design asks that only the most recently scanned payload's result be
  shown, through a request sequence number. The code has no such guard; the
  model runs each validation to completion and has no ordering rule.
- The design says names must be non-empty. The code rejects only the empty
  title; a title of spaces is accepted.
- The design says a failed load is surfaced to the user. The code only logs it;
  the model keeps the list unchanged and reports nothing.

## Model

| member | source | states |
|---|---|---|
| `Encuestas.Payload` | src/App.jsx:143 | the code carries the URL when it is non-empty and the id otherwise (the same expression as the copied text at line 43); it is empty only when both are |
| `Texto.Lower` | src/App.jsx:318-323 | `toLowerCase` keeps the length, leaves no upper-case letter, and changes a character only by moving an upper-case letter to its lower-case form |
| `Texto.LowerIdempotent` | src/App.jsx:318-323 | lower-casing an already lower-cased text changes nothing |
| `Texto.Includes` | src/App.jsx:321-323 | `includes` of the empty text always holds, and a text includes only needles no longer than itself |
| `Texto.IncludesAt` | src/App.jsx:321-323 | `includes` holds exactly when the needle occurs at some position of the text |
| `Busqueda.Coincide` | src/App.jsx:318-324 | the empty query matches every resource, and a resource always matches its own name as query |
| `Busqueda.CoincideSinMayusculas` | src/App.jsx:318-324 | matching ignores case: lower-casing the query, or the name, description and URL, changes nothing; the id is never searched |
| `Busqueda.Filtrar` | src/App.jsx:317-325 | the filtered list is no longer than the list and holds only loaded resources that match the query |
| `Busqueda.FiltrarVacia` | src/App.jsx:318-319 | an empty query keeps every resource, in order |
| `Busqueda.CoincideOcurre` | src/App.jsx:320-324 | for a non-empty query, a resource matches exactly when the lower-cased query occurs in its lower-cased name, description or URL |
| `Busqueda.FiltrarMiembro` | src/App.jsx:317-325 | a resource is shown if and only if it is loaded and matches |
| `Busqueda.FiltrarSubsecuencia` | src/App.jsx:317-325 | the filtered list is the loaded list restricted to exactly the matching positions, in increasing order |
| `Paginacion.TotalPaginas` | src/App.jsx:327-330 | at least one page; with n > 0 resources, the least number of six-item pages that holds them (ceil(n/6)) |
| `Paginacion.Slice` | src/App.jsx:337-340 | `slice` clamps both bounds to the list, is empty when the start is past the end, and element k is the list's element at start + k |
| `Paginacion.Pagina` | src/App.jsx:336-340 | page p holds at most six items, its k-th item is the list's item (p-1)*6+k, pages before the last are full, pages in range are non-empty, pages past the last are empty |
| `Paginacion.PaginasPrefijo` | src/App.jsx:336-340 | pages 1..k together are the first 6k items of the list, in order |
| `Paginacion.PaginasCubren` | src/App.jsx:327-340 | pages 1..totalPaginas together are exactly the filtered list, so each item is on exactly one page |
| `Paginacion.PaginaDe` | src/App.jsx:336-340 | item j is on page j/6+1, which exists, at place j%6 |
| `Tabla.Donde` | src/App.jsx:353-356 | `.eq(column, value)` returns only table rows whose column equals the value |
| `Tabla.DondeUnica` | src/App.jsx:357 | the selection has exactly one row if and only if exactly one row matches, and then it is that row |
| `Tabla.Buscar` | src/App.jsx:353-357 | `.single()` hits if and only if exactly one row matches, and then returns that row; no match or several matches is a miss |
| `Tabla.Validar` | src/App.jsx:352-373 | with a read that may fail, a failed read counts as a miss: a successful id read with a unique match wins; otherwise a successful URL read with a unique match is used; nothing is found if and only if each read failed or missed; with both reads answering it is `Resolver` |
| `Tabla.FalloUrlNoEncuentra` | src/App.jsx:352-368 | when the URL read fails, the code of a registered resource with a URL (no row having that URL as id) reports not found |
| `Tabla.FalloIdUsaUrl` | src/App.jsx:359-372 | when the id read fails, a unique URL match is shown, even if another row has the scanned text as its id |
| `Tabla.Resolver` | src/App.jsx:352-373 | the resolved resource is a table row whose id or url is the scanned text; a unique id match wins; the URL match is used only when the id lookup misses; nothing resolves if and only if both lookups miss |
| `Tabla.IdUnico` | src/App.jsx:353-357 | with unique ids, a row is the only one carrying its id |
| `Tabla.Insertar` | src/App.jsx:282-286 | an insert adds exactly one row, first in listing order, and keeps the others |
| `Tabla.InsertarHallable` | src/App.jsx:282-286 | inserting under a fresh id keeps ids unique, and the new row is then found by its id |
| `Tabla.Eliminar` | src/App.jsx:301 | a delete keeps only rows of the table whose id differs from the argument |
| `Tabla.EliminarConserva` | src/App.jsx:301 | a row survives if and only if its id differs from the argument, and the survivors keep their order |
| `Tabla.EliminarUno` | src/App.jsx:301 | with unique ids, deleting a present id removes exactly one row, an absent id none, and ids stay unique |
| `Tabla.EliminarIdFalla` | src/App.jsx:353-357 | after a delete, the lookup by the deleted id misses |
| `Tabla.EliminarLuegoValidar` | src/App.jsx:359-372 | after a delete, validating the former id can only succeed through the URL lookup, and fails when no row has that text as its URL |
| `Tabla.PayloadResuelve` | src/App.jsx:348-377 | the payload of a resource validates back to that resource: by id when it has no URL, by the URL fallback (the id lookup missing) when its URL is unique and is no row's id |
| `Tabla.UrlCompartidaFalla` | src/App.jsx:360-369 | two rows sharing a URL that is no row's id make that URL resolve to nothing |
| `Tema.Inicial` | src/App.jsx:197-204 | the initial theme is always valid; a stored "light" or "dark" is taken, anything else gives "dark" |
| `Tema.Alternar` | src/App.jsx:211-213 | the toggled theme is always valid and differs from a valid previous one |
| `Tema.AlternarDosVeces` | src/App.jsx:211-213 | toggling twice restores a valid theme |
| `Aplicacion.App.Filtradas` | src/App.jsx:317-325 | the shown list is no longer than the loaded list and holds only loaded resources that match the current query |
| `Aplicacion.App.Total` | src/App.jsx:327-330 | the page count of the filtered list is at least 1 and is the least number of six-item pages that holds a non-empty list |
| `Aplicacion.App.Paginadas` | src/App.jsx:336-340 | the current page shows at most six resources, the k-th being the filtered list's item (pagina-1)*6+k |
| `Aplicacion.App.constructor` | src/App.jsx:172-194 | the initial state: empty list and form, empty query, page 1, no scan, no current resource, theme from storage |
| `Aplicacion.App.CargarEncuestas` | src/App.jsx:265-273 | a successful load replaces the list with the table's rows (and shows page 1 if the length changed); a failed load changes nothing |
| `Aplicacion.App.CrearEncuesta` | src/App.jsx:275-296 | an empty title, or a failed insert, changes nothing; otherwise exactly one row with the form's fields is inserted, the form is cleared, the list is reloaded (page 1 shown again when its length changed), and the new row is found by its id |
| `Aplicacion.App.EliminarEncuesta` | src/App.jsx:298-308 | a declined confirmation or a failed delete changes nothing; otherwise the rows with that id are removed, the rest kept in order, the list reloaded (page 1 shown again when its length changed), and the id lookup then misses |
| `Aplicacion.App.CambiarBusqueda` | src/App.jsx:332-334 | a new query is stored, and page 1 is shown when it differs from the previous one |
| `Aplicacion.App.CambiarPagina` | src/App.jsx:342-345 | a page below 1 or above `totalPaginas` is ignored, any other becomes the current page, which is then non-empty unless the filtered list is |
| `Aplicacion.App.ValidarEncuesta` | src/App.jsx:348-377 | the current resource is the validation result for the given outcome of each read (`Resolver` when both answer) and the message is "Encuesta válida: " and its name, or the not-found message; the table is not changed |
| `Aplicacion.App.AlEscanear` | src/App.jsx:385-388 | the decoded text is recorded and validated, with the same outcome of each read |
| `Aplicacion.App.ToggleTheme` | src/App.jsx:211-213 | the theme switches between "dark" and "light" |

## Left out

- Sign-in, sign-up, sign-out and the session listener (src/App.jsx:216-262) belong to an external identity service; every handler is modelled as running with a session present, and the load triggered by a new session (src/App.jsx:310-314) is the `CargarEncuestas` operation without its trigger.
- The network transport to the store and the server-side ordering by `created_at`; the table is a sequence already in that order, and an insert puts the new row first.
- Generating the code image with the `qrcode` library and decoding camera frames with `html5-qrcode` (src/App.jsx:7-36, 380-412); these are library calls and camera I/O. A scan is modelled as `AlEscanear` receiving the decoded text; unreadable frames, which the code ignores, produce no call.
- Overlapping validations: the code awaits two lookups per scan and has no guard against an older scan finishing last; the model runs each validation to completion, one at a time.
- Aplicacion.App.ValidarEncuesta: states the state after both lookups; the interim "Buscando encuesta..." message, visible only while the lookups are in flight, is set and then overwritten.
- Aplicacion.App.CrearEncuesta: the reload runs right after the insert within the handler; the code starts it without awaiting it.
- Aplicacion.App.CargarEncuestas: the page reset to 1 is applied in the same step as the new list; the code applies it in an effect after the next render.
- Alerts, console logging, the clipboard copy, the download link and the print window (src/App.jsx:42-108); these are browser I/O. Of the handler results, `TituloObligatorio`, `ErrorAlCrear` and `ErrorAlEliminar` stand for the alert shown; `Creada`, `Cancelada` and `Eliminada` show none.
- Writing the theme to `localStorage` and to the document element (src/App.jsx:206-209); the value read from storage is a parameter of the constructor.
- The JSX markup, including which pagination buttons are disabled.
- Rows written to the table by other clients with a `null` column: the code reads such a column as the empty string on the client (`|| ""`), but the server-side `.eq("url", texto)` never matches a `null` URL; the model represents every column as a string and so covers only rows the application created.
- The Unicode semantics of `toLowerCase`; only the ASCII letters A-Z are lower-cased.
