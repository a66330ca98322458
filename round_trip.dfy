/** How the two directions fit together: a value the encoder writes into the
    command line is what the decoder reads back from the stored command, and
    options left at the defaults the decoder reports add nothing to the
    command line. */
module RoundTrip {
  import opened PyValues
  import opened PyText
  import opened PyNumbers
  import opened ShellQuote
  import opened Schema
  import opened NumericHelpers
  import opened ArgumentSearch
  import opened Decode
  import opened Encode

  /** A flag for the usual `flag %` template: no space, no `%`, no regular
      expression metacharacter. */
  predicate IsFlag(flag: string) {
    ' ' !in flag && '%' !in flag && forall i :: 0 <= i < |flag| ==> !IsRegexMeta(flag[i])
  }

  lemma FlagHasNoBraces(flag: string)
    requires IsFlag(flag)
    ensures '{' !in flag && '}' !in flag
  {
    forall i | 0 <= i < |flag|
      ensures flag[i] != '{' && flag[i] != '}'
    {
      assert !IsRegexMeta(flag[i]);
    }
  }

  /** A word of shell-safe characters holds no whitespace and no quote, so it
      is written unquoted and read back unstripped. */
  lemma SafeWordFacts(w: string)
    requires w != [] && AllSafe(w)
    ensures forall m :: 0 <= m < |w| ==> !IsSpace(w[m])
    ensures StripQuotes(w) == w
    ensures EscapeForCli(w) == w
  {
    assert forall m :: 0 <= m < |w| ==> IsSafe(w[m]);
    assert w[0] != '"' && w[|w| - 1] != '"';
    assert Strip(w, '"') == w;
    assert w[0] != '\'' && w[|w| - 1] != '\'';
  }

  /** `str(n)` of an integer is a safe word. */
  lemma IntWordSafe(n: int)
    ensures IntToString(n) != [] && AllSafe(IntToString(n))
  {
  }

  /** The integer a number option writes for a submitted integer: reflected
      across its range when it is inverted. */
  function Written(n: Node, v: int): int
    requires n.NumberNode?
    requires n.invert ==> ParseNumber(n.low).Int? && ParseNumber(n.high).Int?
  {
    if n.invert then ParseNumber(n.low).i + ParseNumber(n.high).i - v else v
  }

  /** A nonzero integer whose written form differs from the parsed default
      becomes the token `flag <digits>`. */
  lemma EncodeNumberToken(n: Node, flag: string, values: map<string, PyValue>, v: int)
    requires n.NumberNode? && IsFlag(flag) && n.arg == flag + " %"
    requires n.invert ==> ParseNumber(n.low).Int? && ParseNumber(n.high).Int?
    requires ParseNumber(n.default).Int?
    requires Lookup(values, n.id) == Int(v) && v != 0
    requires Written(n, v) != 0 && Written(n, v) != ParseNumber(n.default).i
    ensures EncodeNumber(n, values) == Ok([flag + " " + IntToString(Written(n, v))])
  {
    FlagToken(flag, Written(n, v));
  }

  /** The template `flag %` turns an integer into `flag <digits>`. */
  lemma FlagToken(flag: string, w: int)
    requires IsFlag(flag)
    ensures Substitute(flag + " %", EscapeForCli(IntToString(w))) == Ok(flag + " " + IntToString(w))
  {
    IntWordSafe(w);
    SafeWordFacts(IntToString(w));
    FlagHasNoBraces(flag);
    SubstituteFlag(flag, IntToString(w));
  }

  /** What the `arg` template finds is what the number option reports. */
  lemma DecodedNumberValue(n: Node, user: Option<Program>, found: Option<string>, value: PyValue)
    requires n.NumberNode?
    requires StepDecimals(StepLiterals(n)).Ok? && NumberDefault(n).Ok?
    requires FindArgumentValue(user, n.arg) == Ok(found)
    requires NumberValue(n, found) == Ok(value)
    ensures DecodeNumber(n, user).Ok? && DecodeNumber(n, user).value.value == value
  {
  }

  /** The template `flag %` finds the digits written after the flag. */
  lemma FoundDigits(flag: string, program: Program, pre: string, post: string, w: int)
    requires IsFlag(flag)
    requires program.command == pre + flag + " " + IntToString(w) + post
    requires post == [] || IsSpace(post[0])
    requires forall j :: 0 <= j < |pre| ==> !MatchAt(program.command, j, flag)
    ensures FindArgumentValue(Some(program), flag + " %") == Ok(Some(IntToString(w)))
  {
    var word := IntToString(w);
    IntWordSafe(w);
    SafeWordFacts(word);
    PatternOfFlag(flag);
    ReadBack(flag + " %", flag, pre, word, post, program);
  }

  /** The digits of a nonzero integer give that integer, reflected when the
      option is inverted. */
  lemma DigitsValue(n: Node, w: int)
    requires n.NumberNode?
    requires n.invert ==> ParseNumber(n.low).Int? && ParseNumber(n.high).Int?
    requires w != 0
    ensures NumberValue(n, Some(IntToString(w))) ==
              Ok(if n.invert then Int(ParseNumber(n.low).i + ParseNumber(n.high).i - w) else Int(w))
  {
    ParseNumberIntToString(w);
    IntWordSafe(w);
    WordValue(n, IntToString(w), w);
  }

  lemma WordValue(n: Node, word: string, w: int)
    requires n.NumberNode?
    requires n.invert ==> ParseNumber(n.low).Int? && ParseNumber(n.high).Int?
    requires word != [] && ParseNumber(word) == Int(w) && w != 0
    ensures NumberValue(n, Some(word)) ==
              Ok(if n.invert then Int(ParseNumber(n.low).i + ParseNumber(n.high).i - w) else Int(w))
  {
  }

  /** The token `flag <digits>`, found in the stored command, decodes to the
      integer (reflected back when the option is inverted). */
  lemma DecodeNumberToken(n: Node, flag: string, program: Program, pre: string, post: string, w: int)
    requires n.NumberNode? && IsFlag(flag) && n.arg == flag + " %"
    requires n.invert ==> ParseNumber(n.low).Int? && ParseNumber(n.high).Int?
    requires StepDecimals(StepLiterals(n)).Ok? && NumberDefault(n).Ok?
    requires w != 0
    requires program.command == pre + flag + " " + IntToString(w) + post
    requires post == [] || IsSpace(post[0])
    requires forall j :: 0 <= j < |pre| ==> !MatchAt(program.command, j, flag)
    ensures DecodeNumber(n, Some(program)).Ok?
    ensures DecodeNumber(n, Some(program)).value.value ==
              if n.invert then Int(ParseNumber(n.low).i + ParseNumber(n.high).i - w) else Int(w)
  {
    FoundDigits(flag, program, pre, post, w);
    DigitsValue(n, w);
    DecodedNumberValue(n, Some(program), Some(IntToString(w)),
      if n.invert then Int(ParseNumber(n.low).i + ParseNumber(n.high).i - w) else Int(w));
  }

  /** `_cmd_resolve_number` then `_resolve_number`: a nonzero integer that
      is written (it differs from the default) is read back as itself, also
      through `convert="invert"`. */
  lemma NumberRoundTrip(n: Node, flag: string, values: map<string, PyValue>, v: int, program: Program, pre: string, post: string)
    requires n.NumberNode? && IsFlag(flag) && n.arg == flag + " %"
    requires n.invert ==> ParseNumber(n.low).Int? && ParseNumber(n.high).Int?
    requires ParseNumber(n.default).Int? && StepDecimals(StepLiterals(n)).Ok?
    requires Lookup(values, n.id) == Int(v) && v != 0
    requires Written(n, v) != 0 && Written(n, v) != ParseNumber(n.default).i
    requires program.command == pre + flag + " " + IntToString(Written(n, v)) + post
    requires post == [] || IsSpace(post[0])
    requires forall j :: 0 <= j < |pre| ==> !MatchAt(program.command, j, flag)
    ensures EncodeNumber(n, values) == Ok([flag + " " + IntToString(Written(n, v))])
    ensures DecodeNumber(n, Some(program)).Ok? && DecodeNumber(n, Some(program)).value.value == Int(v)
  {
    EncodeNumberToken(n, flag, values, v);
    DecodeNumberToken(n, flag, program, pre, post, Written(n, v));
  }

  /** The one flag a well-formed boolean has. */
  function NodeFlag(n: Node): string
    requires n.BooleanNode?
  {
    if n.argSet != [] then n.argSet else n.argUnset
  }

  /** `_cmd_resolve_boolean` then `_resolve_boolean`: with exactly one flag,
      and a command that holds the flag only where the encoder wrote it, the
      decoded value is the truthiness of the submitted one. */
  lemma BooleanRoundTrip(n: Node, values: map<string, PyValue>, program: Program, pre: string, post: string)
    requires n.BooleanNode? && (n.argSet == []) != (n.argUnset == [])
    requires program.command == pre + Join(EncodeBoolean(n, values), " ") + post
    requires EncodeBoolean(n, values) == [] ==> !Contains(program.command, NodeFlag(n))
    ensures DecodeBoolean(n, Some(program)) ==
              Ok(Resolved(n.id, Bool(Truthy(Lookup(values, n.id))), Bool(n.argUnset != []), CheckboxControl))
  {
    var tokens := EncodeBoolean(n, values);
    if tokens != [] {
      assert tokens == [NodeFlag(n)];
      assert Join(tokens, " ") == NodeFlag(n);
      ContainsInfix(pre, NodeFlag(n), post);
    }
  }

  predicate DistinctIds(options: seq<Choice>) {
    forall i, j :: 0 <= i < j < |options| ==> options[i].id != options[j].id
  }

  /** `_cmd_resolve_select` then `_resolve_select`: the flag of the
      submitted option is written, and it is read back as that option when no
      later option's flag occurs in the command. */
  lemma SelectRoundTrip(n: Node, values: map<string, PyValue>, k: nat, program: Program, pre: string, post: string)
    requires n.SelectNode? && |n.options| != 1 && DistinctIds(n.options)
    requires k < |n.options| && n.options[k].argSet != [] && n.options[k].id != []
    requires Lookup(values, n.id) == Str(n.options[k].id)
    requires program.command == pre + n.options[k].argSet + post
    requires forall j :: k < j < |n.options| && n.options[j].argSet != [] ==> !Contains(program.command, n.options[j].argSet)
    ensures EncodeSelect(n, values) == Ok([n.options[k].argSet])
    ensures DecodeSelect(n, Some(program)).Ok? && DecodeSelect(n, Some(program)).value.value == Str(n.options[k].id)
  {
    var options := n.options;
    assert LastWithId(options, options[k].id) == Some(k);
    ContainsInfix(pre, options[k].argSet, post);
    assert Chosen(options[k], Some(program));
    assert forall j :: k < j < |options| ==> !Chosen(options[j], Some(program));
  }

  /** `_cmd_resolve_string` then `_resolve_string`: a non-empty value of
      shell-safe characters is written unquoted and read back as itself. */
  lemma StringRoundTrip(n: Node, flag: string, values: map<string, PyValue>, text: string, program: Program, pre: string, post: string)
    requires n.StringNode? && IsFlag(flag) && n.arg == flag + " %"
    requires Lookup(values, n.id) == Str(text) && text != [] && AllSafe(text)
    requires program.command == pre + flag + " " + text + post
    requires post == [] || IsSpace(post[0])
    requires forall j :: 0 <= j < |pre| ==> !MatchAt(program.command, j, flag)
    ensures EncodeString(n, values) == Ok([flag + " " + text])
    ensures DecodeString(n, Some(program)).Ok? && DecodeString(n, Some(program)).value.value == Str(text)
  {
    StringWritten(n, flag, values, text);
    StringReadBack(n, flag, text, program, pre, post);
  }

  lemma StringWritten(n: Node, flag: string, values: map<string, PyValue>, text: string)
    requires n.StringNode? && IsFlag(flag) && n.arg == flag + " %"
    requires Lookup(values, n.id) == Str(text) && text != [] && AllSafe(text)
    ensures EncodeString(n, values) == Ok([flag + " " + text])
  {
    SafeWordFacts(text);
    FlagHasNoBraces(flag);
    SubstituteFlag(flag, text);
  }

  lemma StringReadBack(n: Node, flag: string, text: string, program: Program, pre: string, post: string)
    requires n.StringNode? && IsFlag(flag) && n.arg == flag + " %"
    requires text != [] && AllSafe(text)
    requires program.command == pre + flag + " " + text + post
    requires post == [] || IsSpace(post[0])
    requires forall j :: 0 <= j < |pre| ==> !MatchAt(program.command, j, flag)
    ensures DecodeString(n, Some(program)).Ok? && DecodeString(n, Some(program)).value.value == Str(text)
  {
    SafeWordFacts(text);
    PatternOfFlag(flag);
    ReadBack(n.arg, flag, pre, text, post, program);
  }

  /** A leaf's submitted value is at the default the decoder reports: a
      number at its (reflected) parsed default, a boolean at its default, a
      select at its default option; `None` stands for an untouched number or
      select. A boolean must have exactly one flag. A string counts only when falsy: a truthy string is always
      written, even when it equals the `default` attribute. Selects must
      have distinct ids and not exactly one option. */
  predicate LeafAtDefault(n: Node, values: map<string, PyValue>) {
    var v := if n.GroupNode? then Null else Lookup(values, n.id);
    match n
    case NumberNode(_, _, _, _, _, _, _) => v == Null || NumberDefault(n) == Ok(v)
    case BooleanNode(_, argSet, argUnset) => (argSet == []) != (argUnset == []) && v == Bool(argUnset != [])
    case SelectNode(_, options) => |options| != 1 && DistinctIds(options) && (v == Null || v == DefaultIn(options))
    case StringNode(_, _, _) => !Truthy(v)
    case GroupNode(_) => true
  }

  predicate AllAtDefault(leaves: seq<Node>, values: map<string, PyValue>) {
    forall i :: 0 <= i < |leaves| ==> LeafAtDefault(leaves[i], values)
  }

  lemma NumberAtDefault(n: Node, values: map<string, PyValue>)
    requires n.NumberNode? && LeafAtDefault(n, values)
    ensures EncodeNumber(n, values) == Ok([])
  {
    var v := Lookup(values, n.id);
    if v != Null && n.invert {
      var lo, hi, d := ParseNumber(n.low), ParseNumber(n.high), ParseNumber(n.default);
      assert lo.Int? && hi.Int? && d.Int?;
      assert v == Int(lo.i + hi.i - d.i);
      InvertRangeTwice(lo, hi, d);
    }
  }

  lemma SelectAtDefault(n: Node, values: map<string, PyValue>)
    requires n.SelectNode? && LeafAtDefault(n, values)
    ensures EncodeSelect(n, values) == Ok([])
  {
    var options := n.options;
    var d := DefaultIn(options);
    var v := Lookup(values, n.id);
    var chosen := if Truthy(v) then v else d;
    assert chosen == d;
    DefaultWritesNothing(options);
  }

  /** The default option of a select with distinct ids carries no flag. */
  lemma DefaultWritesNothing(options: seq<Choice>)
    requires DistinctIds(options)
    ensures var d := DefaultIn(options); d.Str? && d.s in OptionTable(options) ==> OptionTable(options)[d.s] == []
  {
    var d := DefaultIn(options);
    if d.Str? {
      var k := LastUnflagged(options).value;
      assert d == Str(options[k].id);
      assert LastWithId(options, options[k].id) == Some(k);
    }
  }

  lemma NodeAtDefault(n: Node, values: map<string, PyValue>)
    requires !n.GroupNode? && LeafAtDefault(n, values)
    ensures EncodeNode(n, values) == Ok([])
  {
    match n
    case NumberNode(_, _, _, _, _, _, _) => NumberAtDefault(n, values);
    case SelectNode(_, _) => SelectAtDefault(n, values);
    case BooleanNode(_, _, _) =>
    case StringNode(_, _, _) =>
  }

  lemma AllAtDefaultSplit(a: seq<Node>, b: seq<Node>, values: map<string, PyValue>)
    requires AllAtDefault(a + b, values)
    ensures AllAtDefault(a, values) && AllAtDefault(b, values)
  {
    assert forall i :: 0 <= i < |a| ==> a[i] == (a + b)[i];
    assert forall i :: 0 <= i < |b| ==> b[i] == (a + b)[|a| + i];
  }

  /** Options at their defaults contribute no token. */
  lemma {:induction false} DefaultsEncodeToNothing(entries: seq<Entry>, values: map<string, PyValue>)
    requires AllAtDefault(Leaves(entries), values)
    ensures EncodeEntries(entries, values) == Ok([])
    decreases entries
  {
    if entries != [] {
      AllAtDefaultSplit(EntryLeaves(entries[0]), Leaves(entries[1..]), values);
      EntryAtDefault(entries[0], values);
      DefaultsEncodeToNothing(entries[1..], values);
    }
  }

  lemma {:induction false} EntryAtDefault(e: Entry, values: map<string, PyValue>)
    requires AllAtDefault(EntryLeaves(e), values)
    ensures EncodeEntry(e, values) == Ok([])
    decreases e
  {
    if IsHandled(e.name) {
      ItemsAtDefault(e.items, values);
    }
  }

  lemma {:induction false} ItemsAtDefault(items: seq<Node>, values: map<string, PyValue>)
    requires AllAtDefault(ItemLeaves(items), values)
    ensures EncodeItems(items, values) == Ok([])
    decreases items
  {
    if items != [] {
      AllAtDefaultSplit(NodeLeaves(items[0]), ItemLeaves(items[1..]), values);
      if items[0].GroupNode? {
        DefaultsEncodeToNothing(items[0].entries, values);
      } else {
        assert NodeLeaves(items[0]) == [items[0]];
        assert NodeLeaves(items[0])[0] == items[0];
        NodeAtDefault(items[0], values);
      }
      ItemsAtDefault(items[1..], values);
    }
  }

  /** With every option at its default, the command line is the program
      name followed by the fixed `<command>` arguments. */
  lemma CommandAtDefaults(s: Screensaver, values: map<string, PyValue>)
    requires AllAtDefault(Leaves(s.entries), values)
    ensures CommandLine(s, values) == Ok(Join([s.name] + s.commands, " "))
  {
    DefaultsEncodeToNothing(s.entries, values);
    assert [s.name] + s.commands + [] == [s.name] + s.commands;
  }
}
