/** The encode direction, `get_command`: the program name, the fixed
    `<command>` arguments, then zero or one token per option leaf, joined
    with single spaces. */
module Encode {
  import opened PyValues
  import opened PyText
  import opened PyNumbers
  import opened ShellQuote
  import opened Schema
  import opened NumericHelpers

  /** `str(v)`; Python's rendering of a float is outside the model. */
  function PyStr(v: PyValue): (r: Result<string>)
    ensures v.Str? ==> r == Ok(v.s)
    ensures v.Int? ==> r.Ok? && ParseNumber(r.value) == v
    ensures r.Err? <==> v.Float?
  {
    match v
    case Null => Ok("None")
    case Int(i) => ParseNumberIntToString(i); Ok(IntToString(i))
    case Bool(b) => Ok(if b then "True" else "False")
    case Str(s) => Ok(s)
    case Float(_) => Err(Unmodelled("float formatting"))
  }

  /** `a != b` for a resolved value and a parsed default: a string or `None`
      differs from every number, a `bool` compares as 0 or 1; comparing
      different floats is outside the model. */
  function PyNotEqual(a: PyValue, b: PyValue): (r: Result<bool>)
    requires b.Int? || b.Float?
    ensures a == b ==> r == Ok(false)
    ensures a.Str? || a.Null? ==> r == Ok(true)
    ensures a.Int? && b.Int? ==> r == Ok(a.i != b.i)
    ensures r.Err? ==> a.Float? || b.Float?
  {
    if a == b then Ok(false)
    else if a.Null? || a.Str? then Ok(true)
    else if a.Float? || b.Float? then Err(Unmodelled("float comparison"))
    else Ok((if a.Int? then a.i else if a.b then 1 else 0) != b.i)
  }

  /** `template.replace('%', '{}').format(x)`: with no `%` the template is
      left as it is, with one `%` the value takes its place, and with more
      the second placeholder has no argument (`IndexError`). Braces already
      in the template are outside the model. */
  function Substitute(template: string, x: string): (r: Result<string>)
    ensures '{' !in template && '}' !in template && '%' !in template ==> r == Ok(template)
    ensures r.Ok? && '%' in template ==> |r.value| == |template| - 1 + |x|
    ensures '{' !in template && '}' !in template && IndexOf(template, '%').Some? ==>
      var k := IndexOf(template, '%').value;
      ('%' in template[k + 1..] ==> r == Err(IndexError)) &&
      ('%' !in template[k + 1..] ==> r == Ok(template[..k] + x + template[k + 1..]))
    ensures '{' in template || '}' in template ==> r.Err? && r.failure.Unmodelled?
  {
    if '{' in template || '}' in template then Err(Unmodelled("format braces"))
    else match IndexOf(template, '%')
      case None => Ok(template)
      case Some(k) => if '%' in template[k + 1..] then Err(IndexError) else Ok(template[..k] + x + template[k + 1..])
  }

  /** The template `flag %` puts the value after the flag and a space. */
  lemma SubstituteFlag(flag: string, x: string)
    requires '%' !in flag && '{' !in flag && '}' !in flag
    ensures Substitute(flag + " %", x) == Ok(flag + " " + x)
  {
    var t := flag + " %";
    assert t[|flag| + 1] == '%';
    assert forall i :: 0 <= i < |flag| ==> t[i] == flag[i];
    IndexOfAfter(flag + " ", '%', []);
    assert flag + " " + ['%'] + [] == t;
    assert IndexOf(t, '%') == Some(|flag| + 1);
    assert t[..|flag| + 1] == flag + " ";
    assert t[|flag| + 2..] == [];
    assert '{' !in t && '}' !in t;
    assert Substitute(t, x) == Ok(t[..|flag| + 1] + x + t[|flag| + 2..]);
    assert t[..|flag| + 1] + x + t[|flag| + 2..] == flag + " " + x;
  }

  /** `_cmd_resolve_number`: a truthy submitted value, reflected when the
      option is inverted; a falsy one (absent, `None`, 0, `''`, `False`) falls
      back to the parsed default; a token only when the result differs from
      the parsed default. */
  function EncodeNumber(n: Node, values: map<string, PyValue>): (r: Result<seq<string>>)
    requires n.NumberNode?
    ensures !Truthy(Lookup(values, n.id)) ==> r == Ok([])
    ensures r.Ok? ==> |r.value| <= 1
    ensures var v, d := Lookup(values, n.id), ParseNumber(n.default);
      v.Int? && d.Int? && (n.invert ==> ParseNumber(n.low).Int? && ParseNumber(n.high).Int?) ==>
        var w := if n.invert then ParseNumber(n.low).i + ParseNumber(n.high).i - v.i else v.i;
        (r == Ok([]) <==> v.i == 0 || w == 0 || w == d.i)
    ensures var v, d := Lookup(values, n.id), ParseNumber(n.default);
      v.Int? && d.Int? && (n.invert ==> ParseNumber(n.low).Int? && ParseNumber(n.high).Int?) ==>
        var w := if n.invert then ParseNumber(n.low).i + ParseNumber(n.high).i - v.i else v.i;
        var token := Substitute(n.arg, EscapeForCli(IntToString(w)));
        v.i != 0 && w != 0 && w != d.i ==>
          (r.Err? <==> token.Err?) && (r.Ok? ==> r.value == [token.value])
  {
    var lo := ParseNumber(n.low);
    var hi := ParseNumber(n.high);
    var default := ParseNumber(n.default);
    var found := Lookup(values, n.id);
    var submitted :- if Truthy(found) && n.invert then InvertRange(lo, hi, found) else Ok(found);
    var chosen := if Truthy(submitted) then submitted else default;
    var differs :- PyNotEqual(chosen, default);
    if !differs then Ok([])
    else
      var text :- PyStr(chosen);
      var token :- Substitute(n.arg, EscapeForCli(text));
      Ok([token])
  }

  /** `_cmd_resolve_string`: a token for a truthy string value; a truthy
      value of another type cannot be quoted (`TypeError`). */
  function EncodeString(n: Node, values: map<string, PyValue>): (r: Result<seq<string>>)
    requires n.StringNode?
    ensures !Truthy(Lookup(values, n.id)) ==> r == Ok([])
    ensures Truthy(Lookup(values, n.id)) && !Lookup(values, n.id).Str? ==> r == Err(TypeError)
    ensures var v := Lookup(values, n.id); Truthy(v) && v.Str? ==>
      (r.Err? <==> Substitute(n.arg, EscapeForCli(v.s)).Err?) &&
      (r.Ok? ==> r.value == [Substitute(n.arg, EscapeForCli(v.s)).value])
    ensures r.Ok? ==> |r.value| <= 1
  {
    var found := Lookup(values, n.id);
    if !Truthy(found) then Ok([])
    else if !found.Str? then Err(TypeError)
    else
      var token :- Substitute(n.arg, EscapeForCli(found.s));
      Ok([token])
  }

  /** `_cmd_resolve_boolean`: `arg-set` when the value is truthy, `arg-unset`
      when it is falsy, each only where given. */
  function EncodeBoolean(n: Node, values: map<string, PyValue>): (r: seq<string>)
    requires n.BooleanNode?
    ensures Truthy(Lookup(values, n.id)) ==> r == (if n.argSet != [] then [n.argSet] else [])
    ensures !Truthy(Lookup(values, n.id)) ==> r == (if n.argUnset != [] then [n.argUnset] else [])
  {
    var found := Lookup(values, n.id);
    if n.argSet != [] && Truthy(found) then [n.argSet]
    else if n.argUnset != [] && !Truthy(found) then [n.argUnset]
    else []
  }

  /** The position of the last option with the given id. */
  function LastWithId(options: seq<Choice>, id: string): (r: Option<nat>)
    ensures r.Some? ==> r.value < |options| && options[r.value].id == id
    ensures r.Some? ==> forall j :: r.value < j < |options| ==> options[j].id != id
    ensures r.None? ==> forall j :: 0 <= j < |options| ==> options[j].id != id
    decreases |options|
  {
    if options == [] then None
    else if options[|options| - 1].id == id then Some(|options| - 1)
    else
      var init := options[..|options| - 1];
      assert forall i :: 0 <= i < |init| ==> init[i] == options[i];
      LastWithId(init, id)
  }

  /** The `options` dictionary of `_cmd_resolve_select`: each id maps to the
      flag of the last option with that id. */
  function OptionTable(options: seq<Choice>): (t: map<string, string>)
    ensures forall k :: k in t <==> LastWithId(options, k).Some?
    ensures forall k :: k in t ==> t[k] == options[LastWithId(options, k).value].argSet
    decreases |options|
  {
    if options == [] then map[]
    else
      var last := options[|options| - 1];
      var init := options[..|options| - 1];
      var t := OptionTable(init);
      assert forall k :: LastWithId(options, k) == (if k == last.id then Some(|options| - 1) else LastWithId(init, k));
      t[last.id := last.argSet]
  }

  /** A one-option extension of the list adds (or overwrites) one entry. */
  lemma OptionTableStep(options: seq<Choice>, i: nat)
    requires i < |options|
    ensures OptionTable(options[..i + 1]) == OptionTable(options[..i])[options[i].id := options[i].argSet]
  {
    assert options[..i + 1][..i] == options[..i];
  }

  /** The loop of `_cmd_resolve_select`: it fills the table and overwrites
      the default at each option without a flag. */
  method BuildOptionTable(options: seq<Choice>) returns (table: map<string, string>, default: PyValue)
    ensures table == OptionTable(options)
    ensures default == DefaultIn(options)
  {
    table, default := map[], Null;
    var i := 0;
    while i < |options|
      invariant 0 <= i <= |options|
      invariant table == OptionTable(options[..i])
      invariant default == DefaultIn(options[..i])
    {
      var option := options[i];
      assert options[..i + 1][..i] == options[..i];
      assert options[..i + 1][i] == option;
      OptionTableStep(options, i);
      table := table[option.id := option.argSet];
      if option.argSet == [] {
        default := Str(option.id);
      }
      i := i + 1;
    }
    assert options[..i] == options;
  }

  /** `_cmd_resolve_select`: the flag of the submitted option, or of the
      default option when the value is falsy; nothing when that option has no
      flag or the value names no option. As in the decode direction, a single
      `<option>` raises `AttributeError`. */
  function EncodeSelect(n: Node, values: map<string, PyValue>): (r: Result<seq<string>>)
    requires n.SelectNode?
    ensures r.Err? <==> |n.options| == 1
    ensures r.Ok? ==> |r.value| <= 1
    ensures r.Ok? && |r.value| == 1 ==> exists i :: 0 <= i < |n.options| && n.options[i].argSet == r.value[0] != []
    ensures r.Ok? ==>
      var found := Lookup(values, n.id);
      var chosen := if Truthy(found) then found else DefaultIn(n.options);
      var k := if chosen.Str? then LastWithId(n.options, chosen.s) else None;
      r.value == if k.Some? && n.options[k.value].argSet != [] then [n.options[k.value].argSet] else []
  {
    if |n.options| == 1 then Err(AttributeError)
    else
      var table := OptionTable(n.options);
      var found := Lookup(values, n.id);
      var chosen := if Truthy(found) then found else DefaultIn(n.options);
      var command := if chosen.Str? && chosen.s in table then table[chosen.s] else [];
      assert command != [] ==> n.options[LastWithId(n.options, chosen.s).value].argSet == command;
      Ok(if command != [] then [command] else [])
  }

  /** The handler of one option leaf: at most one token. */
  function EncodeLeaf(n: Node, values: map<string, PyValue>): (r: Result<seq<string>>)
    requires !n.GroupNode?
    ensures r.Ok? ==> |r.value| <= 1
  {
    match n
    case NumberNode(_, _, _, _, _, _, _) => EncodeNumber(n, values)
    case BooleanNode(_, _, _) => Ok(EncodeBoolean(n, values))
    case SelectNode(_, _) => EncodeSelect(n, values)
    case StringNode(_, _, _) => EncodeString(n, values)
  }

  /** The reference for the traversal: the leaves' handlers in order, their
      tokens concatenated, the first failure ending the command. */
  function LeafTokens(leaves: seq<Node>, values: map<string, PyValue>): (r: Result<seq<string>>)
    requires forall i :: 0 <= i < |leaves| ==> !leaves[i].GroupNode?
    ensures r.Ok? ==> |r.value| <= |leaves|
    ensures r.Err? <==> exists i :: 0 <= i < |leaves| && EncodeLeaf(leaves[i], values).Err?
    decreases |leaves|
  {
    if leaves == [] then Ok([])
    else
      var first :- EncodeLeaf(leaves[0], values);
      var rest :- LeafTokens(leaves[1..], values);
      assert forall i :: 1 <= i < |leaves| ==> leaves[i] == leaves[1..][i - 1];
      Ok(first + rest)
  }

  /** Encoding the leaves of `a + b` is encoding `a`, then `b`. */
  lemma {:induction false} LeafTokensAppend(a: seq<Node>, b: seq<Node>, values: map<string, PyValue>)
    requires forall i :: 0 <= i < |a| ==> !a[i].GroupNode?
    requires forall i :: 0 <= i < |b| ==> !b[i].GroupNode?
    ensures LeafTokens(a + b, values) == Then(LeafTokens(a, values), LeafTokens(b, values))
    decreases |a|
  {
    if a == [] {
      assert a + b == b;
      assert LeafTokens(a, values) == Ok([]);
      if LeafTokens(b, values).Ok? {
        assert [] + LeafTokens(b, values).value == LeafTokens(b, values).value;
      }
    } else {
      assert (a + b)[0] == a[0];
      assert (a + b)[1..] == a[1..] + b;
      LeafTokensAppend(a[1..], b, values);
      LeafTokensCons(a + b, values);
      LeafTokensCons(a, values);
      var first, xs, y := EncodeLeaf(a[0], values), LeafTokens(a[1..], values), LeafTokens(b, values);
      if first.Ok? && xs.Ok? && y.Ok? {
        ConcatAssoc(first.value, xs.value, y.value);
      }
    }
  }

  /** One step of the flat reference. */
  lemma LeafTokensCons(leaves: seq<Node>, values: map<string, PyValue>)
    requires leaves != [] && forall i :: 0 <= i < |leaves| ==> !leaves[i].GroupNode?
    ensures LeafTokens(leaves, values) == Then(EncodeLeaf(leaves[0], values), LeafTokens(leaves[1..], values))
  {
  }

  /** `resolve_xscreensaver_command` over the keys of an element: the tokens of
      its leaves, in traversal order, as the flat reference gives them. */
  function EncodeEntries(entries: seq<Entry>, values: map<string, PyValue>): (r: Result<seq<string>>)
    ensures r == LeafTokens(Leaves(entries), values)
    ensures r.Ok? ==> |r.value| <= |Leaves(entries)|
    decreases entries
  {
    if entries == [] then Ok([])
    else
      LeafTokensAppend(EntryLeaves(entries[0]), Leaves(entries[1..]), values);
      var first :- EncodeEntry(entries[0], values);
      var rest :- EncodeEntries(entries[1..], values);
      Ok(first + rest)
  }

  function EncodeEntry(e: Entry, values: map<string, PyValue>): (r: Result<seq<string>>)
    ensures r == LeafTokens(EntryLeaves(e), values)
    decreases e
  {
    if IsHandled(e.name) then EncodeItems(e.items, values) else Ok([])
  }

  function EncodeItems(items: seq<Node>, values: map<string, PyValue>): (r: Result<seq<string>>)
    ensures r == LeafTokens(ItemLeaves(items), values)
    decreases items
  {
    if items == [] then Ok([])
    else
      LeafTokensAppend(NodeLeaves(items[0]), ItemLeaves(items[1..]), values);
      var first :- EncodeNode(items[0], values);
      var rest :- EncodeItems(items[1..], values);
      Ok(first + rest)
  }

  /** One element: a group gives the tokens of its leaves, a leaf its own. */
  function EncodeNode(n: Node, values: map<string, PyValue>): (r: Result<seq<string>>)
    ensures r == LeafTokens(NodeLeaves(n), values)
    ensures !n.GroupNode? ==> r == EncodeLeaf(n, values)
    decreases n
  {
    if n.GroupNode? then EncodeEntries(n.entries, values)
    else
      var r := EncodeLeaf(n, values);
      assert [n][1..] == [];
      assert r.Ok? ==> r.value + [] == r.value;
      r
  }

  /** The parts of the command line: name, `<command>` arguments, tokens. */
  function CommandParts(s: Screensaver, values: map<string, PyValue>): (r: Result<seq<string>>)
    ensures r.Ok? ==> |r.value| >= 1 + |s.commands| && r.value[0] == s.name
    ensures r.Ok? ==> r.value[1..1 + |s.commands|] == s.commands
    ensures r.Err? <==> LeafTokens(Leaves(s.entries), values).Err?
    ensures r.Ok? ==> r.value[1 + |s.commands|..] == LeafTokens(Leaves(s.entries), values).value
  {
    var tokens :- EncodeEntries(s.entries, values);
    Ok([s.name] + s.commands + tokens)
  }

  /** `get_command` as intended: the parts joined by single spaces. */
  function CommandLine(s: Screensaver, values: map<string, PyValue>): (r: Result<string>)
    ensures r.Ok? ==> s.name <= r.value
    ensures r.Err? <==> EncodeEntries(s.entries, values).Err?
  {
    var parts :- CommandParts(s, values);
    JoinStartsWith(parts, " ");
    Ok(Join(parts, " "))
  }

  lemma JoinStartsWith(parts: seq<string>, sep: string)
    requires parts != []
    ensures parts[0] <= Join(parts, sep)
  {
  }

  /** The command line splits at its spaces back into the program name, the
      `<command>` arguments and the tokens, in that order, when none of them
      holds a space. */
  lemma CommandLineSplits(s: Screensaver, values: map<string, PyValue>)
    requires CommandParts(s, values).Ok?
    requires forall i :: 0 <= i < |CommandParts(s, values).value| ==> ' ' !in CommandParts(s, values).value[i]
    ensures CommandLine(s, values).Ok?
    ensures Split(CommandLine(s, values).value, ' ') == CommandParts(s, values).value
  {
    SplitJoin(CommandParts(s, values).value, ' ');
  }

  /** `get_command` as written: the XML reader turns a single `<command>`
      element into its attribute dictionary, not a one-element list, and the
      loop then meets strings without `get`. */
  function CommandLineAsWritten(s: Screensaver, values: map<string, PyValue>): (r: Result<string>)
    ensures |s.commands| != 1 ==> r == CommandLine(s, values)
    ensures |s.commands| == 1 ==> r == Err(AttributeError)
  {
    if |s.commands| == 1 then Err(AttributeError) else CommandLine(s, values)
  }

  /** The screensaver `attraction` with the single fixed argument `-root` and
      no options: the intended command line is `attraction -root`, the code as
      written fails. */
  lemma SingleCommandExample()
    ensures CommandLine(Screensaver("attraction", ["-root"], []), map[]) == Ok("attraction -root")
    ensures CommandLineAsWritten(Screensaver("attraction", ["-root"], []), map[]) == Err(AttributeError)
  {
    var s := Screensaver("attraction", ["-root"], []);
    assert EncodeEntries(s.entries, map[]) == Ok([]);
    var parts := ["attraction", "-root"];
    assert [s.name] + s.commands + [] == parts;
    assert CommandParts(s, map[]) == Ok(parts);
    assert parts[1..] == ["-root"];
    assert Join(parts, " ") == "attraction" + " " + "-root";
    assert "attraction" + " " + "-root" == "attraction -root";
  }

  /** The loops of `get_command`: the name, then every `<command>` argument,
      then every token of the traversal, joined by single spaces. */
  method GetCommand(s: Screensaver, values: map<string, PyValue>) returns (r: Result<string>)
    ensures r == CommandLine(s, values)
  {
    var parts := AppendEach([s.name], s.commands);
    var tokens := EncodeEntries(s.entries, values);
    if tokens.Err? {
      CommandLineFails(s, values);
      return Err(tokens.failure);
    }
    parts := AppendEach(parts, tokens.value);
    CommandLineJoins(s, values);
    r := Ok(Join(parts, " "));
  }

  /** One loop of `get_command`: each item appended in turn. */
  method AppendEach(parts: seq<string>, items: seq<string>) returns (r: seq<string>)
    ensures r == parts + items
  {
    r := parts;
    var i := 0;
    while i < |items|
      invariant 0 <= i <= |items|
      invariant r == parts + items[..i]
    {
      assert items[..i + 1] == items[..i] + [items[i]];
      r := r + [items[i]];
      i := i + 1;
    }
    assert items[..i] == items;
  }

  lemma CommandLineFails(s: Screensaver, values: map<string, PyValue>)
    requires EncodeEntries(s.entries, values).Err?
    ensures CommandLine(s, values) == Err(EncodeEntries(s.entries, values).failure)
  {
  }

  lemma CommandLineJoins(s: Screensaver, values: map<string, PyValue>)
    requires EncodeEntries(s.entries, values).Ok?
    ensures CommandLine(s, values) == Ok(Join([s.name] + s.commands + EncodeEntries(s.entries, values).value, " "))
  {
  }
}
