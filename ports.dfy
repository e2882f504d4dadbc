/** Serial ports as the menus see them, and the numbered-menu choice rule. */
module Ports {
  import opened Text

  /** A detected serial endpoint: its identifier and its description. */
  datatype Port = Port(device: string, description: string)

  /** Some detected port carries the identifier `device`. */
  predicate Present(ports: seq<Port>, device: string)
  {
    exists i :: 0 <= i < |ports| && ports[i].device == device
  }

  /** `int(text)` followed by the check `1 <= choice <= len(items)`; the
      ValueError branch and the out-of-range branch both give None. */
  function SelectChoice<T>(items: seq<T>, text: string): (r: Option<T>)
    ensures r.Some? <==> ParseInt(text).Some? && 1 <= ParseInt(text).value <= |items|
    ensures r.Some? ==> r.value in items && r.value == items[ParseInt(text).value - 1]
  {
    match ParseInt(text)
    case Some(choice) =>
      if choice < 1 || choice > |items| then None else Some(items[choice - 1])
    case None => None
  }
}
