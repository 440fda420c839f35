/** The documented behaviour of the `SRC=DST` mapping tables. */
module Utils {

  /**
   * Translate a project path or tag name through a mapping table: an exact
   * match is replaced by its destination (the empty string meaning "unset"
   * or "removed"), anything else is returned unchanged.
   */
  function TryMap(table: map<string, string>, value: string): (r: string)
    ensures value !in table ==> r == value
    ensures value in table ==> r == table[value]
    ensures value in table && table[value] == "" ==> r == ""
  {
    if value in table then table[value] else value
  }
}
