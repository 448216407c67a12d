/** The colour theme of the view: "dark" or "light". */
module Tema {
  import opened Encuestas

  predicate Valido(t: string)
  {
    t == "dark" || t == "light"
  }

  /**
   * The theme chosen at start-up from the stored value: a stored "light" or
   * "dark" is taken as it is; nothing stored, or any other text, gives "dark".
   */
  function Inicial(guardado: Option<string>): (t: string)
    ensures Valido(t)
    ensures guardado.Some? && Valido(guardado.value) ==> t == guardado.value
    ensures guardado.None? || !Valido(guardado.value) ==> t == "dark"
  {
    if guardado == Some("light") || guardado == Some("dark") then guardado.value else "dark"
  }

  /** The updater `toggleTheme` applies: "dark" becomes "light", anything else becomes "dark". */
  function Alternar(prev: string): (next: string)
    ensures Valido(next)
    ensures Valido(prev) ==> next != prev
    ensures !Valido(prev) ==> next == "dark"
  {
    if prev == "dark" then "light" else "dark"
  }

  /** Toggling twice gives back any valid theme. */
  lemma AlternarDosVeces(t: string)
    requires Valido(t)
    ensures Alternar(Alternar(t)) == t
  {
  }
}
