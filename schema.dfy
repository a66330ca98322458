/** The per-screensaver option schema, as the XML reader hands it to the
    resolver, and the records the two directions produce and consume. */
module Schema {
  import opened PyValues

  /** An `<option>` of a `<select>`: its `id` and its `arg-set` flag (`""`
      where the attribute is absent; both are falsy to the resolver). */
  datatype Choice = Choice(id: string, argSet: string)

  /** One schema element. `arg` templates hold `%` where the value goes.
      `invert` stands for `convert="invert"`, `slider` for `type="slider"`.
      A boolean's absent `arg-set`/`arg-unset` is `""`. */
  datatype Node =
    | NumberNode(id: string, low: string, high: string, default: string, arg: string, invert: bool, slider: bool)
    | BooleanNode(id: string, argSet: string, argUnset: string)
    | SelectNode(id: string, options: seq<Choice>)
    | StringNode(id: string, textDefault: Option<string>, arg: string)
    | GroupNode(entries: seq<Entry>)

  /** A key of an element's dictionary with the elements of that name, in
      document order: the XML reader groups same-named children under one key
      (an attribute such as `@_label` is a key with no elements). */
  datatype Entry = Entry(name: string, items: seq<Node>)

  /** The `<screensaver>` element: its `name`, the `arg` of each `<command>`
      (`""` where absent) and all of its keys in order. */
  datatype Screensaver = Screensaver(name: string, commands: seq<string>, entries: seq<Entry>)

  /** An entry of the user's `programs` list. */
  datatype Program = Program(command: string, enabled: bool, settings: map<string, string>)

  /** What a decoded option's control needs: for a number the parsed bounds
      and the number of decimal places of its step (0 for step 1). */
  datatype Control =
    | NumberControl(slider: bool, min: PyValue, max: PyValue, decimals: nat)
    | TextControl
    | CheckboxControl
    | SelectControl(choices: seq<string>)

  /** A decoded option: its key, the value read back from the stored command,
      its default and its control. */
  datatype Resolved = Resolved(id: string, value: PyValue, default: PyValue, control: Control)

  /** The element names with a handler; every other key contributes nothing. */
  predicate IsHandled(name: string) {
    name in ["number", "boolean", "select", "string", "hgroup", "vgroup"]
  }

  /** The option leaves under some entries, in the order the resolver visits
      them: entries in order, the items of an entry in order, a group's
      entries in place; entries without a handler are skipped. */
  function Leaves(entries: seq<Entry>): (r: seq<Node>)
    ensures forall i :: 0 <= i < |r| ==> !r[i].GroupNode?
    decreases entries
  {
    if entries == [] then [] else EntryLeaves(entries[0]) + Leaves(entries[1..])
  }

  function EntryLeaves(e: Entry): (r: seq<Node>)
    ensures forall i :: 0 <= i < |r| ==> !r[i].GroupNode?
    decreases e
  {
    if IsHandled(e.name) then ItemLeaves(e.items) else []
  }

  function ItemLeaves(items: seq<Node>): (r: seq<Node>)
    ensures forall i :: 0 <= i < |r| ==> !r[i].GroupNode?
    decreases items
  {
    if items == [] then [] else NodeLeaves(items[0]) + ItemLeaves(items[1..])
  }

  function NodeLeaves(n: Node): (r: seq<Node>)
    ensures forall i :: 0 <= i < |r| ==> !r[i].GroupNode?
    decreases n
  {
    if n.GroupNode? then Leaves(n.entries) else [n]
  }

  /** The position of the last option without a flag. */
  function LastUnflagged(options: seq<Choice>): (r: Option<nat>)
    ensures r.Some? ==> r.value < |options| && options[r.value].argSet == []
    ensures r.Some? ==> forall j :: r.value < j < |options| ==> options[j].argSet != []
    ensures r.None? ==> forall j :: 0 <= j < |options| ==> options[j].argSet != []
    decreases |options|
  {
    if options == [] then None
    else if options[|options| - 1].argSet == [] then Some(|options| - 1)
    else
      var init := options[..|options| - 1];
      assert forall i :: 0 <= i < |init| ==> init[i] == options[i];
      LastUnflagged(init)
  }

  /** The select's default: the id of the last option without a flag, `None`
      when every option has one. */
  function DefaultIn(options: seq<Choice>): (r: PyValue)
    ensures r.Null? <==> forall i :: 0 <= i < |options| ==> options[i].argSet != []
    ensures r.Str? <==> exists i :: 0 <= i < |options| && options[i].argSet == []
    ensures forall i :: (0 <= i < |options| && options[i].argSet == [] &&
                        forall j :: i < j < |options| ==> options[j].argSet != []) ==> r == Str(options[i].id)
  {
    match LastUnflagged(options)
    case None => Null
    case Some(k) => Str(options[k].id)
  }
}
