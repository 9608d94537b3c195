/** How the object-document mapper reports schema failures: a validation error naming
    every failing path, and the store's duplicate-key error for a unique index. */
module Schema {

  /** `parts.join(sep)`. */
  function Join(parts: seq<string>, sep: string): (r: string)
    ensures parts == [] ==> r == ""
    ensures |parts| == 1 ==> r == parts[0]
  {
    if parts == [] then ""
    else if |parts| == 1 then parts[0]
    else parts[0] + sep + Join(parts[1..], sep)
  }

  /** The message of a validation error: the model name, then each failing path's message. */
  function ValidationMessage(model: string, errors: seq<string>): string {
    model + " validation failed: " + Join(errors, ", ")
  }

  /** The default message of a `required` path. */
  function RequiredError(path: string): string {
    path + ": Path `" + path + "` is required."
  }

  /** The error a unique index raises on an insert or update that would duplicate a key. */
  const DuplicateKeyMessage := "E11000 duplicate key error"
}

module CategoryModel {
  import opened Wrappers
  import opened Ids

  /** A category document: a unique, trimmed name and an optional description. */
  datatype Category = Category(id: Id, name: string, description: Option<string>)

  /** The unique index on `name`: no two categories share a name. */
  predicate UniqueNames(cs: seq<Category>) {
    forall i, j | 0 <= i < j < |cs| :: cs[i].name != cs[j].name
  }

  /** Ids are distinct. */
  predicate UniqueIds(cs: seq<Category>) {
    forall i, j | 0 <= i < j < |cs| :: cs[i].id != cs[j].id
  }

  /** `Category.findOne({ name })`: the position of the first category with this name. */
  function FirstNamed(cs: seq<Category>, name: string): (r: Option<nat>)
    ensures r.None? <==> forall i | 0 <= i < |cs| :: cs[i].name != name
    ensures r.Some? ==> r.value < |cs| && cs[r.value].name == name
    ensures r.Some? ==> forall i | 0 <= i < r.value :: cs[i].name != name
  {
    if cs == [] then None
    else if cs[0].name == name then Some(0)
    else
      var rest := FirstNamed(cs[1..], name);
      if rest.None? then None else Some(rest.value + 1)
  }

  /** `Category.findById(id)`: the position of the category with this id, if any. */
  function PositionOf(cs: seq<Category>, id: Id): (r: Option<nat>)
    ensures r.None? <==> forall i | 0 <= i < |cs| :: cs[i].id != id
    ensures r.Some? ==> r.value < |cs| && cs[r.value].id == id
    ensures r.Some? ==> forall i | 0 <= i < r.value :: cs[i].id != id
  {
    if cs == [] then None
    else if cs[0].id == id then Some(0)
    else
      var rest := PositionOf(cs[1..], id);
      if rest.None? then None else Some(rest.value + 1)
  }
}
