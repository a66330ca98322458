# xscreensaver option resolver, modelled in Dafny

The `tux_control` xscreensaver plugin edits the settings of xscreensaver
"hacks". Each hack ships an XML schema: a `<screensaver>` element with a
`name`, fixed `<command arg>` fragments and a tree of `number`, `boolean`,
`select`, `string`, `hgroup` and `vgroup` elements. The user's settings file
stores one shell command line per hack in its `programs` list.
`XScreensaverConfigOptionResolver` translates in both directions:

- **decode** (`get_config_options`): every option leaf of the schema yields
  its current value, read back from the stored command, together with its
  default and its control;
- **encode** (`get_command`): submitted values become the command line
  `name <command args> <one token per non-default option>`.

The plugin around it converts the `H:MM:SS` times of the settings file. It
finds and rewrites a hack's program entry, tests the "selected" index and
maps the global settings into the values it writes back.

Modules:

- `PyValues`, `PyText`, `PyNumbers`: the Python runtime notions the code
  relies on, with Python's own semantics. This covers `None`, truthiness,
  `dict.get`, exceptions as a `Result`, `str.replace`, `strip`, `split`,
  `join`, `int()`, `str(int)` and the literal grammar of `float()`.
- `ShellQuote`: `shlex.quote` and the newline escaping of
  `_escape_value_for_cli`. A POSIX shell word reader is their partner: the
  quoted text reads back as the original.
- `Schema`: the schema tree as the XML reader hands it over, and the
  traversal order of its leaves.
- `NumericHelpers`: `_parse_number`, `_invert_range` and the step inference
  of `_resolve_number`. The inference loop is a method, proved against the
  function that specifies it.
- `ArgumentSearch`: `_find_argument_value`, a regular-expression search, and
  `_find_argument_set`, a substring test.
- `Decode`, `Encode`: the handlers, the two dispatchers, `get_config_options`
  and `get_command`. The loops of `_resolve_select`, `_cmd_resolve_select`
  and `get_command` are methods, proved against specification functions.
- `RoundTrip`: what the encoder writes, the decoder reads back. Options at
  their defaults add nothing to the command line.
- `PluginHelpers`: the helpers of `Plugin.py`.

## Model

| member | source | states |
|---|---|---|
| `PyText.SplitJoin` | tux_control_plugin_xscreensaver/XScreensaverConfigOptionResolver.py:56 | joining parts with a separator none of them holds, then splitting, gives the parts back |
| `PyNumbers.ParseIntToString` | tux_control_plugin_xscreensaver/Plugin.py:425 | `int(str(n)) == n` for every integer |
| `PyNumbers.ParseInt` | tux_control_plugin_xscreensaver/Plugin.py:425 | `int()` refuses a blank text, reads plain digits (single underscores between digits allowed, surrounding whitespace ignored) as the number they spell, and gives a negative number only after a leading `-` |
| `PyNumbers.IntToString` | tux_control_plugin_xscreensaver/XScreensaverConfigOptionResolver.py:83 | `str()` of an integer is non-empty, starts with `-` exactly when the integer is negative, and is otherwise made of digits |
| `PyNumbers.IsFloatLiteral` | tux_control_plugin_xscreensaver/XScreensaverConfigOptionResolver.py:154 | every literal `float()` is given here holds a decimal point, and `int()` refuses it |
| `ShellQuote.IsSafe` | tux_control_plugin_xscreensaver/XScreensaverConfigOptionResolver.py:70 | a character `shlex.quote` leaves unquoted is never whitespace, a quote, a backslash or a shell metacharacter |
| `ShellQuote.Quote` | tux_control_plugin_xscreensaver/XScreensaverConfigOptionResolver.py:70 | `shlex.quote`: `''` for the empty string; a shlex-safe string unchanged; anything else single-quoted, with each `'` written as `'"'"'`; a shell reads the result back as the original string |
| `ShellQuote.QuotedWord` | tux_control_plugin_xscreensaver/XScreensaverConfigOptionResolver.py:70 | a single-quoted word whose quotes are written `'"'"'` reads back as the original text, and then the rest of the input is read |
| `ShellQuote.UnescapeEscape` | tux_control_plugin_xscreensaver/Plugin.py:123 | replacing `\n` by `\\n` is undone by replacing `\\n` by `\n` |
| `ShellQuote.EscapeNewlines` | tux_control_plugin_xscreensaver/XScreensaverConfigOptionResolver.py:70 | the `\n` doubling leaves a text without a backslash unchanged and gives an empty text only for an empty one |
| `ShellQuote.EscapeForCli` | tux_control_plugin_xscreensaver/XScreensaverConfigOptionResolver.py:68-70 | undoing the newline doubling gives back `shlex.quote(value)`, which reads back as `value`; safe non-empty values unchanged; the empty value becomes `''` |
| `ShellQuote.EscapeForCliFacts` | tux_control_plugin_xscreensaver/XScreensaverConfigOptionResolver.py:70 | the three cases of the escape, and the undoing of the newline doubling, for every value |
| `Schema.Leaves` | tux_control_plugin_xscreensaver/XScreensaverConfigOptionResolver.py:286-306 | the leaves the dispatchers visit hold no group: groups are entered in place |
| `Schema.DefaultIn` | tux_control_plugin_xscreensaver/XScreensaverConfigOptionResolver.py:268-270 | a select's default is the id of the last option without `arg-set`; it is `None` exactly when every option has one |
| `NumericHelpers.ParseNumber` | tux_control_plugin_xscreensaver/XScreensaverConfigOptionResolver.py:151-158 | the result is an int or a float; a float exactly when the text holds `.` and `float()` accepts it, and then it is the float of that text |
| `NumericHelpers.ParseNumberIntToString` | tux_control_plugin_xscreensaver/XScreensaverConfigOptionResolver.py:151-158 | `_parse_number(str(n)) == n` for every integer |
| `NumericHelpers.Invert` | tux_control_plugin_xscreensaver/XScreensaverConfigOptionResolver.py:160-163 | on integers, `_invert_range(lo, hi, v) == lo + hi - v`, and it keeps a value inside `[lo, hi]` inside it |
| `NumericHelpers.InvertTwice` | tux_control_plugin_xscreensaver/XScreensaverConfigOptionResolver.py:160-163 | inverting twice gives the value back |
| `NumericHelpers.InvertRange` | tux_control_plugin_xscreensaver/XScreensaverConfigOptionResolver.py:160-163 | on Python values: a string or `None` raises `TypeError`; on integers and bools the result is `lo + hi - v` |
| `NumericHelpers.InvertRangeTwice` | tux_control_plugin_xscreensaver/XScreensaverConfigOptionResolver.py:160-163 | inverting an integer twice gives it back |
| `NumericHelpers.Decimals` | tux_control_plugin_xscreensaver/XScreensaverConfigOptionResolver.py:174-182 | a literal without `.` contributes nothing; a contribution is at least 1; a literal with two points raises `ValueError` |
| `NumericHelpers.DecimalsOf` | tux_control_plugin_xscreensaver/XScreensaverConfigOptionResolver.py:177-182 | `whole.dec` contributes `len(dec)` unless `dec` is all zeros, and then nothing |
| `NumericHelpers.DecimalsTwoPoints` | tux_control_plugin_xscreensaver/XScreensaverConfigOptionResolver.py:177 | a literal with two points raises `ValueError` |
| `NumericHelpers.StepDecimals` | tux_control_plugin_xscreensaver/XScreensaverConfigOptionResolver.py:169-185 | the step's decimal count is the largest contribution, and a literal attains it; it is 0 (step 1, integral type) exactly when no literal contributes; it is an error exactly when a literal has two points |
| `NumericHelpers.StepIntegralExample` | tux_control_plugin_xscreensaver/XScreensaverConfigOptionResolver.py:181-185 | bounds `0`, `10` and default `5.00` give step 1 |
| `NumericHelpers.StepTwoPlacesExample` | tux_control_plugin_xscreensaver/XScreensaverConfigOptionResolver.py:169-185 | `0.5`, `10`, `1.25` give two decimal places |
| `NumericHelpers.StepOfThree` | tux_control_plugin_xscreensaver/XScreensaverConfigOptionResolver.py:169-185 | with the middle literal integral and the last holding the most places, the step takes the last literal's count |
| `NumericHelpers.InferStep` | tux_control_plugin_xscreensaver/XScreensaverConfigOptionResolver.py:171-184 | the loop that collects the contributions computes `StepDecimals` |
| `ArgumentSearch.PatternOf` | tux_control_plugin_xscreensaver/XScreensaverConfigOptionResolver.py:135 | once spaces are removed, the template's regular expression is a literal or a literal prefix followed by the capture; neither part keeps a space or `%` |
| `ArgumentSearch.PatternOfFlag` | tux_control_plugin_xscreensaver/XScreensaverConfigOptionResolver.py:135 | the template `flag %` searches for `flag`, whitespace, then the captured run |
| `ArgumentSearch.FirstMatch` | tux_control_plugin_xscreensaver/XScreensaverConfigOptionResolver.py:137 | `re.search` finds the leftmost match, or reports that no position matches |
| `ArgumentSearch.Captured` | tux_control_plugin_xscreensaver/XScreensaverConfigOptionResolver.py:135-139 | `(\S+)` captures a non-empty run of non-whitespace |
| `ArgumentSearch.FindArgumentValue` | tux_control_plugin_xscreensaver/XScreensaverConfigOptionResolver.py:127-139 | `None` without a user entry or with an empty command; for a template with `%`, the capture of the leftmost match with quotes stripped, or `None` when nothing matches; for a template without `%`, `IndexError` when the command holds it (`group(1)` of a group-less match) and `None` otherwise; any other regular expression is outside the model |
| `ArgumentSearch.StoredCommand` | tux_control_plugin_xscreensaver/XScreensaverConfigOptionResolver.py:128-133 | the stored command is there exactly when the user has a program entry whose command is non-empty, and it is that command |
| `ArgumentSearch.StripQuotes` | tux_control_plugin_xscreensaver/XScreensaverConfigOptionResolver.py:139 | after `.strip('"').strip("'")` the word neither starts nor ends with `'`; a word that neither starts nor ends with a quote is unchanged |
| `ArgumentSearch.FindArgumentSet` | tux_control_plugin_xscreensaver/XScreensaverConfigOptionResolver.py:141-149 | true exactly when a non-empty command is stored and holds the flag |
| `ArgumentSearch.ReadBack` | tux_control_plugin_xscreensaver/XScreensaverConfigOptionResolver.py:127-139 | a word written after `flag ` is the value read back, when no earlier position matches and the word ends at whitespace or at the end |
| `ArgumentSearch.FirstMatchAtFlag` | tux_control_plugin_xscreensaver/XScreensaverConfigOptionResolver.py:135-139 | in `pre flag word post`, with no match inside `pre`, the leftmost match is at the flag and captures the word |
| `Decode.NumberDefault` | tux_control_plugin_xscreensaver/XScreensaverConfigOptionResolver.py:205-206 | the parsed default, reflected to `lo + hi - default` when the option is inverted |
| `Decode.NumberValue` | tux_control_plugin_xscreensaver/XScreensaverConfigOptionResolver.py:200-203 | no text read back gives `None`; a nonzero integer read back is the value, reflected to `lo + hi - v` when the option is inverted |
| `Decode.DecodeNumber` | tux_control_plugin_xscreensaver/XScreensaverConfigOptionResolver.py:165-219 | a step error propagates as `ValueError`; the control holds the parsed bounds and the step's decimal count; the value is the text read back and converted (reflected when inverted), the default is the parsed default (reflected when inverted); it fails exactly when one of those steps does |
| `Decode.DecodeBoolean` | tux_control_plugin_xscreensaver/XScreensaverConfigOptionResolver.py:237-257 | `ValueError` exactly when both flags or neither are given; with `arg-set` the value is "flag present" and the default is false; with `arg-unset` the value is "flag absent" and the default is true |
| `Decode.SelectedIn` | tux_control_plugin_xscreensaver/XScreensaverConfigOptionResolver.py:263-272 | the value is the id of the last option whose `arg-set` occurs in the command; it is `None` exactly when none occurs |
| `Decode.ScanSelect` | tux_control_plugin_xscreensaver/XScreensaverConfigOptionResolver.py:260-272 | the loop computes the choices, the selected value and the default |
| `Decode.DecodeSelect` | tux_control_plugin_xscreensaver/XScreensaverConfigOptionResolver.py:259-284 | an error exactly when the select has a single option; otherwise the selected value, the default and the choices |
| `Decode.DecodeString` | tux_control_plugin_xscreensaver/XScreensaverConfigOptionResolver.py:221-235 | fails exactly when the search fails, with its error; the value is the text read back, or `None` when nothing is read back (and always without a stored command); the default is the `default` attribute as it stands |
| `Decode.DecodeLeaf` | tux_control_plugin_xscreensaver/XScreensaverConfigOptionResolver.py:286-296 | the option a leaf's handler yields carries the leaf's id |
| `Decode.LeafOptions` | tux_control_plugin_xscreensaver/XScreensaverConfigOptionResolver.py:286-306 | one option per leaf, option `i` being the handler's result for leaf `i`; a failure exactly when some leaf's handler fails |
| `Decode.LeafOptionsAppend` | tux_control_plugin_xscreensaver/XScreensaverConfigOptionResolver.py:298-306 | decoding the leaves of `a + b` is decoding `a`, then `b`, the first failure winning |
| `Decode.DecodeEntries` | tux_control_plugin_xscreensaver/XScreensaverConfigOptionResolver.py:298-306 | equals the flat reference `LeafOptions` over the leaves in traversal order: option `i` is leaf `i`'s handler result, with its id |
| `Decode.DecodeNode` | tux_control_plugin_xscreensaver/XScreensaverConfigOptionResolver.py:286-296 | equals the flat reference over the element's leaves: a group gives its leaves' options, a leaf its own |
| `Decode.ConfigOptions` | tux_control_plugin_xscreensaver/XScreensaverConfigOptionResolver.py:40-43 | equals the flat reference over the leaves of the `<screensaver>` element: one option per leaf, each the handler's result for that leaf, and a failure exactly when a leaf's handler fails |
| `Encode.PyStr` | tux_control_plugin_xscreensaver/XScreensaverConfigOptionResolver.py:83 | `str()` of an integer parses back to it; `str()` of a float is outside the model |
| `Encode.PyNotEqual` | tux_control_plugin_xscreensaver/XScreensaverConfigOptionResolver.py:82 | `!=` is false for equal values and true for a string or `None` against a number |
| `Encode.Substitute` | tux_control_plugin_xscreensaver/XScreensaverConfigOptionResolver.py:83 | a template without `%` or braces is unchanged; with braces the call is outside the model; otherwise the value replaces the first `%`, and a second `%` raises `IndexError` (the missing second `format` argument) |
| `Encode.SubstituteFlag` | tux_control_plugin_xscreensaver/XScreensaverConfigOptionResolver.py:83 | `flag %` with a value becomes `flag value` |
| `Encode.EncodeNumber` | tux_control_plugin_xscreensaver/XScreensaverConfigOptionResolver.py:72-83 | a falsy value gives no token; at most one token; for integers, no token exactly when the value is 0, or its written value (reflected when inverting) is 0 or equals the parsed default; otherwise the one token is `arg` with `%` replaced by the escaped `str()` of the written value, and encoding fails exactly when that substitution fails |
| `Encode.EncodeString` | tux_control_plugin_xscreensaver/XScreensaverConfigOptionResolver.py:85-88 | a falsy value gives no token; a truthy non-string raises `TypeError`; a truthy string gives the single token `arg` with the escaped, shell-quoted value in place of `%`, failing exactly when that substitution fails |
| `Encode.EncodeBoolean` | tux_control_plugin_xscreensaver/XScreensaverConfigOptionResolver.py:90-98 | a truthy value gives `arg-set` and a falsy one `arg-unset`, each only when given |
| `Encode.OptionTable` | tux_control_plugin_xscreensaver/XScreensaverConfigOptionResolver.py:101-104 | the id-to-flag table maps each id to the flag of its last option |
| `Encode.OptionTableStep` | tux_control_plugin_xscreensaver/XScreensaverConfigOptionResolver.py:104 | each loop step updates the table at the current option's id |
| `Encode.BuildOptionTable` | tux_control_plugin_xscreensaver/XScreensaverConfigOptionResolver.py:100-107 | the loop computes the table and the default option |
| `Encode.EncodeSelect` | tux_control_plugin_xscreensaver/XScreensaverConfigOptionResolver.py:100-113 | an error exactly when the select has one option; otherwise the flag of the last option whose id is the submitted value, or the default option's id when the value is falsy, and no token when that option has no flag or there is none |
| `Encode.EncodeEntries` | tux_control_plugin_xscreensaver/XScreensaverConfigOptionResolver.py:58-66 | equals the flat reference `LeafTokens`: the tokens of each leaf in traversal order, the first failing handler ending the command; at most one token per leaf |
| `Encode.EncodeNode` | tux_control_plugin_xscreensaver/XScreensaverConfigOptionResolver.py:115-125 | equals the flat reference over the element's leaves; a leaf gives its own handler's result |
| `Encode.EncodeLeaf` | tux_control_plugin_xscreensaver/XScreensaverConfigOptionResolver.py:115-125 | a leaf's handler gives at most one token |
| `Encode.LeafTokens` | tux_control_plugin_xscreensaver/XScreensaverConfigOptionResolver.py:58-66 | at most one token per leaf; a failure exactly when some leaf's handler fails |
| `Encode.LeafTokensAppend` | tux_control_plugin_xscreensaver/XScreensaverConfigOptionResolver.py:58-66 | encoding the leaves of `a + b` is encoding `a`, then `b`, the first failure winning |
| `Encode.CommandParts` | tux_control_plugin_xscreensaver/XScreensaverConfigOptionResolver.py:46-54 | the parts are the name, then every `<command>` argument in order, then exactly the traversal's tokens; it fails exactly when the traversal does |
| `Encode.CommandLine` | tux_control_plugin_xscreensaver/XScreensaverConfigOptionResolver.py:45-56 | the command line starts with the name; it fails exactly when a handler fails |
| `Encode.CommandLineSplits` | tux_control_plugin_xscreensaver/XScreensaverConfigOptionResolver.py:56 | when no part holds a space, splitting the command line at spaces gives the parts back |
| `Encode.CommandLineAsWritten` | tux_control_plugin_xscreensaver/XScreensaverConfigOptionResolver.py:49-50 | with exactly one `<command>` element `get_command` raises `AttributeError`; otherwise it is `CommandLine` |
| `Encode.SingleCommandExample` | tux_control_plugin_xscreensaver/XScreensaverConfigOptionResolver.py:49-50 | `attraction` with one `<command arg="-root">` gives `attraction -root` when corrected and `AttributeError` as written |
| `Encode.GetCommand` | tux_control_plugin_xscreensaver/XScreensaverConfigOptionResolver.py:45-56 | the loops of `get_command` compute `CommandLine` |
| `Encode.AppendEach` | tux_control_plugin_xscreensaver/XScreensaverConfigOptionResolver.py:46-54 | each loop of `get_command` appends its items in order |
| `RoundTrip.EncodeNumberToken` | tux_control_plugin_xscreensaver/XScreensaverConfigOptionResolver.py:72-83 | a nonzero integer whose written form differs from the default becomes the token `flag <digits>` |
| `RoundTrip.DecodeNumberToken` | tux_control_plugin_xscreensaver/XScreensaverConfigOptionResolver.py:200-203 | the token `flag <digits>` decodes to that integer, reflected when the option is inverted |
| `RoundTrip.DecodedNumberValue` | tux_control_plugin_xscreensaver/XScreensaverConfigOptionResolver.py:187-219 | when the step, the search and the default succeed, `_resolve_number` reports the value the text read back converts to |
| `RoundTrip.FoundDigits` | tux_control_plugin_xscreensaver/XScreensaverConfigOptionResolver.py:200 | the template `flag %` reads back the digits written after the flag |
| `RoundTrip.WordValue` | tux_control_plugin_xscreensaver/XScreensaverConfigOptionResolver.py:200-203 | a word that parses to a nonzero integer is decoded as that integer, reflected when inverted |
| `RoundTrip.NumberRoundTrip` | tux_control_plugin_xscreensaver/XScreensaverConfigOptionResolver.py:72-83 | a written nonzero integer is read back as itself, also through `convert="invert"` |
| `RoundTrip.BooleanRoundTrip` | tux_control_plugin_xscreensaver/XScreensaverConfigOptionResolver.py:90-98 | with one flag, the decoded value is the truthiness of the submitted one |
| `RoundTrip.SelectRoundTrip` | tux_control_plugin_xscreensaver/XScreensaverConfigOptionResolver.py:100-113 | the submitted option's flag is written and read back as that option, when no later option's flag occurs |
| `RoundTrip.StringRoundTrip` | tux_control_plugin_xscreensaver/XScreensaverConfigOptionResolver.py:85-88 | a non-empty shell-safe string is written unquoted and read back as itself |
| `RoundTrip.StringWritten` | tux_control_plugin_xscreensaver/XScreensaverConfigOptionResolver.py:85-88 | a non-empty shell-safe string is written as `flag text` |
| `RoundTrip.StringReadBack` | tux_control_plugin_xscreensaver/XScreensaverConfigOptionResolver.py:221-235 | `flag text` in the stored command decodes to the text |
| `RoundTrip.NumberAtDefault` | tux_control_plugin_xscreensaver/XScreensaverConfigOptionResolver.py:78-82 | a number at its decoded default, or `None`, gives no token |
| `RoundTrip.SelectAtDefault` | tux_control_plugin_xscreensaver/XScreensaverConfigOptionResolver.py:109-113 | a select at its default option, or `None`, gives no token |
| `RoundTrip.DefaultWritesNothing` | tux_control_plugin_xscreensaver/XScreensaverConfigOptionResolver.py:101-113 | with distinct ids, the table maps the default option to an empty flag |
| `RoundTrip.DefaultsEncodeToNothing` | tux_control_plugin_xscreensaver/XScreensaverConfigOptionResolver.py:58-66 | options at their defaults give no token, through any nesting of groups |
| `RoundTrip.CommandAtDefaults` | tux_control_plugin_xscreensaver/XScreensaverConfigOptionResolver.py:45-56 | with every option at its default, the command line is the name and the `<command>` arguments |
| `PluginHelpers.Clock` | tux_control_plugin_xscreensaver/Plugin.py:416 | the clock part of `str(timedelta)`: digits, with `:` exactly at the third and sixth places from the end |
| `PluginHelpers.ToTime` | tux_control_plugin_xscreensaver/Plugin.py:410-416 | `str(timedelta(seconds))`: `OverflowError` exactly beyond 999999999 days; from one day on it starts with the day count |
| `PluginHelpers.TimeOf` | tux_control_plugin_xscreensaver/Plugin.py:114-116 | `None` or a string raises `TypeError`; an integer is converted |
| `PluginHelpers.FromTime` | tux_control_plugin_xscreensaver/Plugin.py:418-425 | anything but three `:`-separated fields raises `ValueError`, and every failure is `ValueError` |
| `PluginHelpers.FromTimeFields` | tux_control_plugin_xscreensaver/Plugin.py:418-425 | three colon-free fields that `int()` reads as `h`, `m`, `s` give `h*3600 + m*60 + s` |
| `PluginHelpers.ClockRoundTrip` | tux_control_plugin_xscreensaver/Plugin.py:410-425 | the `H:MM:SS` clock of a second count within a day reads back as that count |
| `PluginHelpers.TimeRoundTrip` | tux_control_plugin_xscreensaver/Plugin.py:410-425 | for `0 <= s < 86400` the time is `H:MM:SS` and reads back as `s` |
| `PluginHelpers.TimePastOneDay` | tux_control_plugin_xscreensaver/Plugin.py:410-425 | from 86400 seconds on, reading the written time back raises `ValueError` |
| `PluginHelpers.FirstFieldUnreadable` | tux_control_plugin_xscreensaver/Plugin.py:418-425 | a first field `int()` cannot read makes the conversion raise `ValueError` |
| `PluginHelpers.IntOf` | tux_control_plugin_xscreensaver/Plugin.py:165 | `int(None)` raises `TypeError`; `int()` of an integer is that integer; `int()` of a text succeeds exactly when the text is an integer literal |
| `PluginHelpers.IsSelected` | tux_control_plugin_xscreensaver/Plugin.py:164-165 | `None` raises `TypeError`; an integer is selected exactly when it is the index |
| `PluginHelpers.SelectedByIndex` | tux_control_plugin_xscreensaver/Plugin.py:164-165 | a stored `str(i)` selects exactly index `i` |
| `PluginHelpers.DefaultSelectsNothing` | tux_control_plugin_xscreensaver/Plugin.py:164-165 | the generated default `-1` selects no program |
| `PluginHelpers.StartsWith` | tux_control_plugin_xscreensaver/Plugin.py:396 | `command.startswith(key)`: the key is the first `len(key)` characters of the command |
| `PluginHelpers.Runs` | tux_control_plugin_xscreensaver/Plugin.py:396 | the corrected ownership test: the command starts with the key, and the key is the whole command or is followed by whitespace |
| `PluginHelpers.RewriteOne` | tux_control_plugin_xscreensaver/Plugin.py:140-143 | an entry the key owns gets the new command and `enabled` flag and keeps everything else; any other entry is unchanged |
| `PluginHelpers.FirstOwned` | tux_control_plugin_xscreensaver/Plugin.py:394-399 | the first program entry the test assigns to the key, or none when no entry matches |
| `PluginHelpers.FindProgram` | tux_control_plugin_xscreensaver/Plugin.py:394-399 | the loop returns the index and entry of the first matching program, or `(0, None)` |
| `PluginHelpers.Rewritten` | tux_control_plugin_xscreensaver/Plugin.py:139-145 | same length and order; matching entries get the new command and enabled flag, all others are unchanged |
| `PluginHelpers.RewritePrograms` | tux_control_plugin_xscreensaver/Plugin.py:139-145 | the loop computes `Rewritten` |
| `PluginHelpers.RewriteKeepsLookup` | tux_control_plugin_xscreensaver/Plugin.py:134-145 | after the rewrite, the lookup finds the same entry, which now holds the new command |
| `PluginHelpers.RewriteIdempotent` | tux_control_plugin_xscreensaver/Plugin.py:139-145 | rewriting twice with the same command is rewriting once |
| `PluginHelpers.PrefixCollisionExample` | tux_control_plugin_xscreensaver/Plugin.py:396 | `startswith` assigns `antspotlight -root` to the key `ant`, and the rewrite overwrites it; whole-word matching finds `ant -root` |
| `PluginHelpers.RunsOneKey` | tux_control_plugin_xscreensaver/Plugin.py:396 | with whole-word matching, a command belongs to at most one key |
| `PluginHelpers.ScreensaverUpdate` | tux_control_plugin_xscreensaver/Plugin.py:128-152 | an unknown key raises `SetException`; the programs list is the rewrite: each entry whose first word is the key gets the generated command and the enabled flag, every other entry is kept unchanged; a selected item records the index of the first such entry, or 0 when there is none; it fails exactly when the command cannot be built |
| `PluginHelpers.Positive` | tux_control_plugin_xscreensaver/Plugin.py:117 | `lockTimeout > 0` for integers and bools |
| `PluginHelpers.Flag` | tux_control_plugin_xscreensaver/Plugin.py:118-120 | `'True'` exactly for a truthy value, `'False'` otherwise |
| `PluginHelpers.SaveTextLiteral` | tux_control_plugin_xscreensaver/Plugin.py:123 | a string's saved form loads back as the string; anything else raises `AttributeError` |
| `PluginHelpers.LoadTextLiteral` | tux_control_plugin_xscreensaver/Plugin.py:323 | anything but a string raises `AttributeError` |
| `PluginHelpers.TextLiteralRoundTrip` | tux_control_plugin_xscreensaver/Plugin.py:123 | loading gives back what was saved |
| `PluginHelpers.GlobalSettings` | tux_control_plugin_xscreensaver/Plugin.py:112-127 | fails exactly when a time cannot be converted or the text literal is not a string; `lock` is `'True'` exactly when `lockTimeout > 0`; the image flags are `'True'` exactly when truthy; the other keys pass through; the text literal loads back unchanged |
| `PluginHelpers.GlobalSettingsTimes` | tux_control_plugin_xscreensaver/Plugin.py:112-117 | with times within a day, the lock follows the lock timeout and each time reads back as the submitted seconds |

Behaviours of the code that a reader might not expect (the model follows
the code):

- A select decodes to the id of the *last* option whose flag occurs in the
  command, not the first. With no flag present its value is `None`, not the
  default option.
- A boolean with both `arg-set` and `arg-unset` raises `ValueError` on
  decode. On encode it emits `arg-set` or `arg-unset` by truthiness.
- A string option at its `default` is still written: only a falsy string
  is left out of the command line.
- A number whose submitted value is inverted to 0 falls back to its default
  and writes no token.
- A screensaver that is not in the programs list gets index 0. With
  `selected = 0` the selection test is then true, but listing it fails
  anyway: reading `enabled` from the missing entry raises `AttributeError`.
  The visible effect is on save: a submitted `is_selected` writes
  `selected = 0`, which selects whatever program is at index 0.

## Left out

- Floats: `Float(literal)` is opaque. Float arithmetic and comparison,
  `str()` of a float and `invert` of a float give `Unmodelled`. So do
  `int()` of a float and `timedelta` with a float.
- `PyValues.Truthy` on a float reads the literal's digits: it is falsy
  exactly when every mantissa digit is `0`. A literal such as `1e-400`,
  which Python rounds to `0.0`, therefore counts as truthy. Underflow and
  rounding of float literals are not modelled.
- Regular expressions in general: a template holding a metacharacter, or
  text after `%`, gives `Unmodelled`.
- `str.format`: a template holding `{` or `}` gives `Unmodelled`.
- Unicode digits: `int()` reads only ASCII digits.
- The UI side: labels, validators, `Slider`/`Number`/`Select`/`Checkbox`/`Text`
  objects and `PluginConfigOption`. Each decoded option keeps only its id,
  value, default and what its control needs.
- XML loading: the schema arrives as a typed tree. An element with a
  missing required attribute (a `number` without `low`) raises in the
  source; that case is not represented. Nor are elements with one
  `<option>` arriving as a list.
- Loading and saving the settings file, the `md5` global key, the
  permission check and plugin registration are I/O and framework plumbing.
  `PluginConfigItem.py` and `setup.py` are not part of this model.
- `PluginHelpers.RewritePrograms`: the source mutates the program
  dictionaries in place. The model builds a new list of values, so the
  aliasing between the old and new list is not represented.
- `RoundTrip.StringRoundTrip`: proved only for non-empty shell-safe
  strings. For other strings the quoted token holds spaces or quotes,
  which the `\S+` search does not read back whole.
- `RoundTrip.NumberRoundTrip`: proved for integers only. Floats are opaque.
- `RoundTrip.DefaultsEncodeToNothing`: a truthy string option always
  writes a token, so string options count as "at default" only when falsy.
  A boolean must carry exactly one flag.
- Generators are modelled as the lists they yield. A failure is the
  exception raised before the whole result is consumed.

## Findings

| source | as written | input that shows it | evidently intended | confidence | as-written member | corrected member |
|---|---|---|---|---|---|---|
| tux_control_plugin_xscreensaver/XScreensaverConfigOptionResolver.py:49-50 | iterates `screensaver['command']`; with exactly one `<command>` the XML reader yields a dict, so the loop gets its keys (strings) and `.get` raises `AttributeError` | a schema `attraction` with one `<command arg="-root"/>` | the single command's `arg` is appended: `attraction -root` | high; not executed | `Encode.CommandLineAsWritten`, `Encode.SingleCommandExample` | `Encode.CommandLine` |
| tux_control_plugin_xscreensaver/Plugin.py:396 | a program entry belongs to a hack when its command `startswith` the hack's key | key `ant`, programs `antspotlight -root` then `ant -root`: the lookup returns the `antspotlight` entry, and the rewrite at line 141 overwrites its command | the key is the whole first word of the command | high; not executed | `PluginHelpers.PrefixCollisionExample` | `PluginHelpers.ScreensaverUpdate`, `PluginHelpers.RunsOneKey` |
