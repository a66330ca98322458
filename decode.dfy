/** The decode direction, `get_config_options`: every option leaf of the
    schema yields one decoded option whose value is read back from the
    command stored in the user's program entry. */
module Decode {
  import opened PyValues
  import opened PyText
  import opened Schema
  import opened NumericHelpers
  import opened ArgumentSearch

  /** The literals whose decimal places set a number option's step. */
  function StepLiterals(n: Node): seq<string>
    requires n.NumberNode?
  {
    [n.low, n.high, n.default]
  }

  /** A number option's default as the decode direction reports it: the
      parsed `default`, reflected when the option is inverted. */
  function NumberDefault(n: Node): (r: Result<PyValue>)
    requires n.NumberNode?
    ensures !n.invert ==> r == Ok(ParseNumber(n.default))
    ensures n.invert && ParseNumber(n.low).Int? && ParseNumber(n.high).Int? && ParseNumber(n.default).Int? ==>
              r == Ok(Int(ParseNumber(n.low).i + ParseNumber(n.high).i - ParseNumber(n.default).i))
  {
    var default := ParseNumber(n.default);
    if n.invert then InvertRange(ParseNumber(n.low), ParseNumber(n.high), default) else Ok(default)
  }

  /** The value `_resolve_number` reports for the text the `arg` template
      found: `None` for no text, otherwise the parsed number, reflected when
      it is truthy and the option is inverted. */
  function NumberValue(n: Node, found: Option<string>): (r: Result<PyValue>)
    requires n.NumberNode?
    ensures found.None? || found == Some([]) ==> r == Ok(Null)
    ensures found.Some? && found.value != [] && ParseNumber(found.value).Int? && ParseNumber(found.value).i != 0 ==>
      var w := ParseNumber(found.value).i;
      (!n.invert ==> r == Ok(Int(w))) &&
      (n.invert && ParseNumber(n.low).Int? && ParseNumber(n.high).Int? ==>
        r == Ok(Int(ParseNumber(n.low).i + ParseNumber(n.high).i - w)))
  {
    var parsed := if found.Some? && found.value != [] then ParseNumber(found.value) else Null;
    if Truthy(parsed) && n.invert then InvertRange(ParseNumber(n.low), ParseNumber(n.high), parsed) else Ok(parsed)
  }

  /** `_resolve_number`: the parsed bounds, the step, the value read back with
      the `arg` template and the parsed default (reflected when inverted). */
  function DecodeNumber(n: Node, user: Option<Program>): (r: Result<Resolved>)
    requires n.NumberNode?
    ensures StepDecimals(StepLiterals(n)).Err? ==> r == Err(ValueError)
    ensures r.Ok? ==> r.value.id == n.id
    ensures r.Ok? ==> r.value.control ==
                      NumberControl(n.slider, ParseNumber(n.low), ParseNumber(n.high), StepDecimals(StepLiterals(n)).value)
    ensures r.Ok? <==> StepDecimals(StepLiterals(n)).Ok? && FindArgumentValue(user, n.arg).Ok? &&
                       NumberValue(n, FindArgumentValue(user, n.arg).value).Ok? && NumberDefault(n).Ok?
    ensures r.Ok? ==> Ok(r.value.value) == NumberValue(n, FindArgumentValue(user, n.arg).value)
    ensures r.Ok? ==> Ok(r.value.default) == NumberDefault(n)
    ensures StoredCommand(user).None? && StepDecimals(StepLiterals(n)).Ok? && !n.invert ==>
      r.Ok? && r.value.value == Null && r.value.default == ParseNumber(n.default)
  {
    var lo := ParseNumber(n.low);
    var hi := ParseNumber(n.high);
    var decimals :- StepDecimals(StepLiterals(n));
    var found :- FindArgumentValue(user, n.arg);
    var value :- NumberValue(n, found);
    var default :- NumberDefault(n);
    Ok(Resolved(n.id, value, default, NumberControl(n.slider, lo, hi, decimals)))
  }

  /** `_resolve_boolean`: exactly one of the two flags must be given; with
      `arg-set` the option is on when the command holds that flag, with
      `arg-unset` when it does not, and it defaults to on exactly when the
      flag is `arg-unset`. */
  function DecodeBoolean(n: Node, user: Option<Program>): (r: Result<Resolved>)
    requires n.BooleanNode?
    ensures r.Err? <==> (n.argSet == []) == (n.argUnset == [])
    ensures r.Err? ==> r.failure == ValueError
    ensures r.Ok? && n.argSet != [] ==> r.value == Resolved(n.id,
      Bool(StoredCommand(user).Some? && Contains(StoredCommand(user).value, n.argSet)), Bool(false), CheckboxControl)
    ensures r.Ok? && n.argUnset != [] ==> r.value == Resolved(n.id,
      Bool(!(StoredCommand(user).Some? && Contains(StoredCommand(user).value, n.argUnset))), Bool(true), CheckboxControl)
  {
    if n.argUnset != [] && n.argSet == [] then
      Ok(Resolved(n.id, Bool(!FindArgumentSet(user, n.argUnset)), Bool(n.argUnset != []), CheckboxControl))
    else if n.argUnset == [] && n.argSet != [] then
      Ok(Resolved(n.id, Bool(FindArgumentSet(user, n.argSet)), Bool(n.argUnset != []), CheckboxControl))
    else
      Err(ValueError)
  }

  /** An option of a select counts as chosen when it has a flag and the
      stored command holds that flag. */
  predicate Chosen(c: Choice, user: Option<Program>) {
    c.argSet != [] && FindArgumentSet(user, c.argSet)
  }

  /** The position of the last chosen option. */
  function LastChosen(options: seq<Choice>, user: Option<Program>): (r: Option<nat>)
    ensures r.Some? ==> r.value < |options| && Chosen(options[r.value], user)
    ensures r.Some? ==> forall j :: r.value < j < |options| ==> !Chosen(options[j], user)
    ensures r.None? ==> forall j :: 0 <= j < |options| ==> !Chosen(options[j], user)
    decreases |options|
  {
    if options == [] then None
    else if Chosen(options[|options| - 1], user) then Some(|options| - 1)
    else
      var init := options[..|options| - 1];
      assert forall i :: 0 <= i < |init| ==> init[i] == options[i];
      LastChosen(init, user)
  }

  /** The select's value: the id of the last chosen option, `None` when no
      option is chosen. */
  function SelectedIn(options: seq<Choice>, user: Option<Program>): (r: PyValue)
    ensures r.Null? <==> forall i :: 0 <= i < |options| ==> !Chosen(options[i], user)
    ensures r.Str? <==> exists i :: 0 <= i < |options| && Chosen(options[i], user)
    ensures forall i :: (0 <= i < |options| && Chosen(options[i], user) &&
                        forall j :: i < j < |options| ==> !Chosen(options[j], user)) ==> r == Str(options[i].id)
  {
    match LastChosen(options, user)
    case None => Null
    case Some(k) => Str(options[k].id)
  }

  /** The ids the select control offers, in order. */
  function ChoiceIds(options: seq<Choice>): (ids: seq<string>)
    ensures |ids| == |options| && forall i :: 0 <= i < |options| ==> ids[i] == options[i].id
  {
    seq(|options|, i requires 0 <= i < |options| => options[i].id)
  }

  /** One more option extends the choices and overrides the value when it is
      chosen. */
  lemma ScanStep(options: seq<Choice>, i: nat, user: Option<Program>)
    requires i < |options|
    ensures ChoiceIds(options[..i + 1]) == ChoiceIds(options[..i]) + [options[i].id]
    ensures SelectedIn(options[..i + 1], user) ==
              if Chosen(options[i], user) then Str(options[i].id) else SelectedIn(options[..i], user)
  {
    var prefix := options[..i + 1];
    assert prefix[..|prefix| - 1] == options[..i];
    assert prefix[|prefix| - 1] == options[i];
  }

  /** One more option overrides the default when it has no flag. */
  lemma DefaultStep(options: seq<Choice>, i: nat)
    requires i < |options|
    ensures DefaultIn(options[..i + 1]) == if options[i].argSet == [] then Str(options[i].id) else DefaultIn(options[..i])
  {
    var prefix := options[..i + 1];
    assert prefix[..|prefix| - 1] == options[..i];
    assert prefix[|prefix| - 1] == options[i];
  }

  /** The loop of `_resolve_select`: it lists every option and overwrites the
      default at each option without a flag and the value at each option
      whose flag the command holds. */
  method ScanSelect(options: seq<Choice>, user: Option<Program>) returns (choices: seq<string>, value: PyValue, default: PyValue)
    ensures choices == ChoiceIds(options)
    ensures value == SelectedIn(options, user)
    ensures default == DefaultIn(options)
  {
    choices, value, default := [], Null, Null;
    var i := 0;
    while i < |options|
      invariant 0 <= i <= |options|
      invariant choices == ChoiceIds(options[..i])
      invariant value == SelectedIn(options[..i], user)
      invariant default == DefaultIn(options[..i])
    {
      var option := options[i];
      ScanStep(options, i, user);
      DefaultStep(options, i);
      choices := choices + [option.id];
      if option.argSet == [] {
        default := Str(option.id);
      } else if FindArgumentSet(user, option.argSet) {
        value := Str(option.id);
      }
      i := i + 1;
    }
    assert options[..i] == options;
  }

  /** `_resolve_select`. A select with a single `<option>` reaches the
      resolver as that option's attribute dictionary, whose keys are strings
      without `get`: `AttributeError`. */
  function DecodeSelect(n: Node, user: Option<Program>): (r: Result<Resolved>)
    requires n.SelectNode?
    ensures r.Err? <==> |n.options| == 1
    ensures r.Ok? ==> r.value == Resolved(n.id, SelectedIn(n.options, user), DefaultIn(n.options), SelectControl(ChoiceIds(n.options)))
  {
    if |n.options| == 1 then Err(AttributeError)
    else Ok(Resolved(n.id, SelectedIn(n.options, user), DefaultIn(n.options), SelectControl(ChoiceIds(n.options))))
  }

  /** `_resolve_string`: the text read back with the `arg` template, and the
      `default` attribute as it stands. */
  function DecodeString(n: Node, user: Option<Program>): (r: Result<Resolved>)
    requires n.StringNode?
    ensures StoredCommand(user).None? ==> r.Ok? && r.value.value == Null
    ensures r.Err? <==> FindArgumentValue(user, n.arg).Err?
    ensures r.Err? ==> r.failure == FindArgumentValue(user, n.arg).failure
    ensures r.Ok? ==>
      r.value.value == match FindArgumentValue(user, n.arg).value case Some(text) => Str(text) case None => Null
    ensures r.Ok? ==> r.value.id == n.id && r.value.control == TextControl
    ensures r.Ok? ==> r.value.default == if n.textDefault.Some? then Str(n.textDefault.value) else Null
  {
    var found :- FindArgumentValue(user, n.arg);
    var value := if found.Some? then Str(found.value) else Null;
    Ok(Resolved(n.id, value, if n.textDefault.Some? then Str(n.textDefault.value) else Null, TextControl))
  }

  /** Every leaf yields exactly one option, in traversal order. */
  predicate OneOptionPerLeaf(options: seq<Resolved>, leaves: seq<Node>)
    requires forall i :: 0 <= i < |leaves| ==> !leaves[i].GroupNode?
  {
    |options| == |leaves| && forall i :: 0 <= i < |options| ==> options[i].id == leaves[i].id
  }

  /** The handler of one option leaf. */
  function DecodeLeaf(n: Node, user: Option<Program>): (r: Result<Resolved>)
    requires !n.GroupNode?
    ensures r.Ok? ==> r.value.id == n.id
  {
    match n
    case NumberNode(_, _, _, _, _, _, _) => DecodeNumber(n, user)
    case BooleanNode(_, _, _) => DecodeBoolean(n, user)
    case SelectNode(_, _) => DecodeSelect(n, user)
    case StringNode(_, _, _) => DecodeString(n, user)
  }

  /** The reference for the traversal: option `i` is the handler's result for
      leaf `i`, and the traversal fails exactly when some leaf's handler does
      (with the first such failure). */
  function LeafOptions(leaves: seq<Node>, user: Option<Program>): (r: Result<seq<Resolved>>)
    requires forall i :: 0 <= i < |leaves| ==> !leaves[i].GroupNode?
    ensures r.Ok? ==> |r.value| == |leaves|
    ensures r.Ok? ==> forall i :: 0 <= i < |leaves| ==> DecodeLeaf(leaves[i], user) == Ok(r.value[i])
    ensures r.Err? <==> exists i :: 0 <= i < |leaves| && DecodeLeaf(leaves[i], user).Err?
    decreases |leaves|
  {
    if leaves == [] then Ok([])
    else
      var first :- DecodeLeaf(leaves[0], user);
      var rest :- LeafOptions(leaves[1..], user);
      assert forall i :: 1 <= i < |leaves| ==> leaves[i] == leaves[1..][i - 1];
      Ok([first] + rest)
  }

  /** Decoding the leaves of `a + b` is decoding `a`, then `b`. */
  lemma {:induction false} LeafOptionsAppend(a: seq<Node>, b: seq<Node>, user: Option<Program>)
    requires forall i :: 0 <= i < |a| ==> !a[i].GroupNode?
    requires forall i :: 0 <= i < |b| ==> !b[i].GroupNode?
    ensures LeafOptions(a + b, user) == Then(LeafOptions(a, user), LeafOptions(b, user))
    decreases |a|
  {
    if a == [] {
      assert a + b == b;
      assert LeafOptions(a, user) == Ok([]);
      if LeafOptions(b, user).Ok? {
        assert [] + LeafOptions(b, user).value == LeafOptions(b, user).value;
      }
    } else {
      assert (a + b)[0] == a[0];
      assert (a + b)[1..] == a[1..] + b;
      LeafOptionsAppend(a[1..], b, user);
      LeafOptionsCons(a + b, user);
      LeafOptionsCons(a, user);
      var first, xs, y := DecodeLeaf(a[0], user), LeafOptions(a[1..], user), LeafOptions(b, user);
      if first.Ok? && xs.Ok? && y.Ok? {
        ConcatAssoc([first.value], xs.value, y.value);
      }
    }
  }

  /** One step of the flat reference. */
  lemma LeafOptionsCons(leaves: seq<Node>, user: Option<Program>)
    requires leaves != [] && forall i :: 0 <= i < |leaves| ==> !leaves[i].GroupNode?
    ensures LeafOptions(leaves, user) ==
      match DecodeLeaf(leaves[0], user)
      case Err(e) => Err(e)
      case Ok(o) => Then(Ok([o]), LeafOptions(leaves[1..], user))
  {
  }

  /** `resolve_xscreensaver_control` over the keys of an element: each key
      with a handler dispatches each of its elements, which gives the flat
      reference over the leaves. */
  function DecodeEntries(entries: seq<Entry>, user: Option<Program>): (r: Result<seq<Resolved>>)
    ensures r == LeafOptions(Leaves(entries), user)
    ensures r.Ok? ==> OneOptionPerLeaf(r.value, Leaves(entries))
    decreases entries
  {
    if entries == [] then Ok([])
    else
      LeafOptionsAppend(EntryLeaves(entries[0]), Leaves(entries[1..]), user);
      var first :- DecodeEntry(entries[0], user);
      var rest :- DecodeEntries(entries[1..], user);
      Ok(first + rest)
  }

  function DecodeEntry(e: Entry, user: Option<Program>): (r: Result<seq<Resolved>>)
    ensures r == LeafOptions(EntryLeaves(e), user)
    decreases e
  {
    if IsHandled(e.name) then DecodeItems(e.items, user) else Ok([])
  }

  function DecodeItems(items: seq<Node>, user: Option<Program>): (r: Result<seq<Resolved>>)
    ensures r == LeafOptions(ItemLeaves(items), user)
    decreases items
  {
    if items == [] then Ok([])
    else
      LeafOptionsAppend(NodeLeaves(items[0]), ItemLeaves(items[1..]), user);
      var first :- DecodeNode(items[0], user);
      var rest :- DecodeItems(items[1..], user);
      Ok(first + rest)
  }

  /** The handler of one element: a leaf gives its option, a group (`hgroup`
      or `vgroup`) the options of its keys. */
  function DecodeNode(n: Node, user: Option<Program>): (r: Result<seq<Resolved>>)
    ensures r == LeafOptions(NodeLeaves(n), user)
    ensures r.Ok? ==> OneOptionPerLeaf(r.value, NodeLeaves(n))
    decreases n
  {
    if n.GroupNode? then DecodeEntries(n.entries, user)
    else
      assert [n][1..] == [];
      var o :- DecodeLeaf(n, user);
      assert [o] + [] == [o];
      Ok([o])
  }

  /** `get_config_options`: the options of the `<screensaver>` element. */
  function ConfigOptions(s: Screensaver, user: Option<Program>): (r: Result<seq<Resolved>>)
    ensures r == LeafOptions(Leaves(s.entries), user)
    ensures r.Ok? ==> OneOptionPerLeaf(r.value, Leaves(s.entries))
  {
    DecodeEntries(s.entries, user)
  }
}
