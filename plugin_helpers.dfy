/** The plugin's helpers around the resolver: the `H:MM:SS` time format of
    the user's configuration file, the lookup and rewrite of program
    entries, the "selected" test and the mapping of the global settings
    into the values written back to the file. */
module PluginHelpers {
  import opened PyValues
  import opened PyText
  import opened PyNumbers
  import opened ShellQuote
  import opened Schema
  import opened Encode

  // ---------------------------------------------------------------------
  // Times

  /** The largest day count `timedelta` accepts. */
  const MaxDays := 999999999

  function Digit(n: nat): char
    requires n < 10
  {
    ('0' as int + n) as char
  }

  /** `%02d` of a number below 100. */
  function TwoDigits(n: nat): (r: string)
    requires n < 100
    ensures |r| == 2 && IsDigit(r[0]) && IsDigit(r[1])
  {
    [Digit(n / 10), Digit(n % 10)]
  }

  /** `H:MM:SS` of a second count within one day. */
  function Clock(seconds: nat): (r: string)
    requires seconds < 86400
    ensures |r| >= 7 && r[|r| - 6] == ':' && r[|r| - 3] == ':'
    ensures forall i :: 0 <= i < |r| && i != |r| - 6 && i != |r| - 3 ==> IsDigit(r[i])
  {
    NatToString(seconds / 3600) + ":" + TwoDigits(seconds / 60 % 60) + ":" + TwoDigits(seconds % 60)
  }

  /** `_to_xscreensaver_time`, `str(timedelta(seconds=s))`: whole days
      (floor division) as `N day, ` or `N days, `, then the clock of the
      remainder; a day count beyond `timedelta`'s range raises
      `OverflowError`. */
  function ToTime(seconds: int): (r: Result<string>)
    ensures r.Err? <==> seconds / 86400 < -MaxDays || seconds / 86400 > MaxDays
    ensures r.Err? ==> r.failure == OverflowError
    ensures r.Ok? && seconds / 86400 != 0 ==> IntToString(seconds / 86400) <= r.value
    ensures r.Ok? ==> |r.value| >= 7
  {
    var days := seconds / 86400;
    if days < -MaxDays || days > MaxDays then Err(OverflowError)
    else if days == 0 then Ok(Clock(seconds % 86400))
    else Ok(IntToString(days) + (if days == 1 || days == -1 then " day, " else " days, ") + Clock(seconds % 86400))
  }

  /** `timedelta(seconds=v)` for a submitted value: a bool counts as 0 or 1,
      `None` and strings raise `TypeError`. */
  function TimeOf(v: PyValue): (r: Result<string>)
    ensures v.Null? || v.Str? ==> r == Err(TypeError)
    ensures v.Int? ==> r == ToTime(v.i)
  {
    match v
    case Int(i) => ToTime(i)
    case Bool(b) => ToTime(if b then 1 else 0)
    case Float(_) => Err(Unmodelled("float seconds"))
    case Null => Err(TypeError)
    case Str(_) => Err(TypeError)
  }

  /** `_from_xscreensaver_time`: exactly three `:`-separated fields, each
      read by `int()`; anything else raises `ValueError`. */
  function FromTime(t: string): (r: Result<int>)
    ensures |Split(t, ':')| != 3 ==> r == Err(ValueError)
    ensures r.Err? ==> r.failure == ValueError
  {
    var parts := Split(t, ':');
    if |parts| != 3 then Err(ValueError)
    else
      match (ParseInt(parts[0]), ParseInt(parts[1]), ParseInt(parts[2]))
      case (Some(h), Some(m), Some(s)) => Ok(h * 3600 + m * 60 + s)
      case _ => Err(ValueError)
  }

  lemma ThreeParts(a: string, b: string, c: string)
    requires ':' !in a && ':' !in b && ':' !in c
    ensures Split(a + ":" + b + ":" + c, ':') == [a, b, c]
  {
    SplitNone(c, ':');
    SplitAfter(b, ':', c);
    assert a + ":" + b + ":" + c == a + [':'] + (b + [':'] + c);
    SplitAfter(a, ':', b + [':'] + c);
  }

  lemma NoColonInInt(n: int)
    ensures ':' !in IntToString(n)
  {
  }

  /** Three fields that `int()` reads give `h*3600 + m*60 + s`. */
  lemma FromTimeFields(a: string, b: string, c: string, h: int, m: int, s: int, total: int)
    requires ':' !in a && ':' !in b && ':' !in c
    requires ParseInt(a) == Some(h) && ParseInt(b) == Some(m) && ParseInt(c) == Some(s)
    requires total == h * 3600 + m * 60 + s
    ensures FromTime(a + ":" + b + ":" + c) == Ok(total)
  {
    ThreeParts(a, b, c);
  }

  /** `int()` reads `%02d` back. */
  lemma ParseTwoDigits(n: nat)
    requires n < 100
    ensures ParseInt(TwoDigits(n)) == Some(n)
  {
    var t := TwoDigits(n);
    var a, b := t[0], t[1];
    assert t[..1] == [a];
    assert [a][..0] == [];
    assert DigitsValue([a]) == a as int - '0' as int == n / 10;
    assert DigitsValue(t) == DigitsValue([a]) * 10 + (b as int - '0' as int);
    assert b as int - '0' as int == n % 10;
    StripSpacesUnchanged(t);
  }

  /** The clock of a second count within a day reads back as that count. */
  lemma ClockRoundTrip(seconds: nat)
    requires seconds < 86400
    ensures FromTime(Clock(seconds)) == Ok(seconds)
  {
    var h, m, s := seconds / 3600, seconds / 60 % 60, seconds % 60;
    assert Clock(seconds) == NatToString(h) + ":" + TwoDigits(m) + ":" + TwoDigits(s);
    ClockArithmetic(seconds);
    ClockFields(h, m, s, seconds);
  }

  /** `H:MM:SS` reads back as `H*3600 + MM*60 + SS`. */
  lemma ClockFields(h: nat, m: nat, s: nat, total: int)
    requires m < 60 && s < 60 && total == h * 3600 + m * 60 + s
    ensures FromTime(NatToString(h) + ":" + TwoDigits(m) + ":" + TwoDigits(s)) == Ok(total)
  {
    var a, b, c := NatToString(h), TwoDigits(m), TwoDigits(s);
    assert ':' !in a && ParseInt(a) == Some(h) by {
      assert IntToString(h) == a;
      NoColonInInt(h);
      ParseIntToString(h);
    }
    assert ':' !in b && ParseInt(b) == Some(m) by { ParseTwoDigits(m); }
    assert ':' !in c && ParseInt(c) == Some(s) by { ParseTwoDigits(s); }
    FromTimeFields(a, b, c, h, m, s, total);
  }

  lemma ClockArithmetic(seconds: nat)
    ensures seconds / 3600 * 3600 + seconds / 60 % 60 * 60 + seconds % 60 == seconds
  {
    var q := seconds / 60;
    assert seconds == q * 60 + seconds % 60;
    assert q == q / 60 * 60 + q % 60;
    assert q / 60 == seconds / 3600;
  }

  /** Within one day, `_from_xscreensaver_time` undoes `_to_xscreensaver_time`
      (the settings form caps every time at 43200 seconds). */
  lemma TimeRoundTrip(seconds: int)
    requires 0 <= seconds < 86400
    ensures ToTime(seconds) == Ok(Clock(seconds))
    ensures FromTime(ToTime(seconds).value) == Ok(seconds)
  {
    assert seconds / 86400 == 0 && seconds % 86400 == seconds;
    ClockRoundTrip(seconds);
  }

  /** From one day on, the `N day(s), ` prefix makes the first field
      unreadable to `int()`: the round trip raises `ValueError`. */
  lemma TimePastOneDay(seconds: int)
    requires 86400 <= seconds && seconds / 86400 <= MaxDays
    ensures ToTime(seconds).Ok? && FromTime(ToTime(seconds).value) == Err(ValueError)
  {
    var days := seconds / 86400;
    var rem := seconds % 86400;
    var suffix := if days == 1 then " day, " else " days, ";
    var h, m, s := rem / 3600, rem / 60 % 60, rem % 60;
    var first := IntToString(days) + suffix + NatToString(h);
    assert ToTime(seconds).value == first + ":" + TwoDigits(m) + ":" + TwoDigits(s);
    DayFieldUnreadable(days, suffix, h);
    FirstFieldUnreadable(first, TwoDigits(m), TwoDigits(s));
  }

  /** A time whose first field `int()` cannot read raises `ValueError`. */
  lemma FirstFieldUnreadable(a: string, b: string, c: string)
    requires ':' !in a && ':' !in b && ':' !in c
    requires ParseInt(a).None?
    ensures FromTime(a + ":" + b + ":" + c) == Err(ValueError)
  {
    ThreeParts(a, b, c);
  }

  /** `N day(s), H` is not something `int()` reads: a space follows the
      digits of `N`. */
  lemma DayFieldUnreadable(days: int, suffix: string, h: nat)
    requires days >= 1 && (suffix == " day, " || suffix == " days, ")
    ensures ':' !in IntToString(days) + suffix + NatToString(h)
    ensures ParseInt(IntToString(days) + suffix + NatToString(h)).None?
  {
    var first := IntToString(days) + suffix + NatToString(h);
    NoColonInInt(days);
    NoColonInInt(h);
    assert ':' !in suffix;
    var k := |IntToString(days)|;
    assert first[k] == ' ';
    assert IsDigit(first[0]) && IsDigit(first[|first| - 1]);
    StripSpacesUnchanged(first);
  }

  // ---------------------------------------------------------------------
  // The "selected" index

  /** `int(v)`: `None` raises `TypeError`, a malformed string `ValueError`. */
  function IntOf(v: PyValue): (r: Result<int>)
    ensures v.Null? ==> r == Err(TypeError)
    ensures v.Int? ==> r == Ok(v.i)
    ensures v.Str? ==> (r.Ok? <==> ParseInt(v.s).Some?)
  {
    match v
    case Null => Err(TypeError)
    case Int(i) => Ok(i)
    case Bool(b) => Ok(if b then 1 else 0)
    case Str(s) => if ParseInt(s).Some? then Ok(ParseInt(s).value) else Err(ValueError)
    case Float(_) => Err(Unmodelled("int of a float"))
  }

  /** `_is_xscreensaver_selected`: whether `int(selected)` is the index. */
  function IsSelected(selected: PyValue, index: nat): (r: Result<bool>)
    ensures selected.Null? ==> r == Err(TypeError)
    ensures selected.Int? ==> r == Ok(selected.i == index)
  {
    var n :- IntOf(selected);
    Ok(n == index)
  }

  /** A stored `selected` written by `str(i)` selects exactly index `i`. */
  lemma SelectedByIndex(i: int, index: nat)
    ensures IsSelected(Str(IntToString(i)), index) == Ok(i == index)
  {
    ParseIntToString(i);
  }

  /** The generated default `selected = -1` selects no program. */
  lemma DefaultSelectsNothing(index: nat)
    ensures IsSelected(Str("-1"), index) == Ok(false)
  {
    assert IntToString(-1) == "-1";
    SelectedByIndex(-1, index);
  }

  // ---------------------------------------------------------------------
  // Program entries

  /** `command.startswith(key)`: the test the plugin uses to decide that a
      program entry belongs to the screensaver `key`. */
  predicate StartsWith(command: string, key: string): (r: bool)
    ensures r <==> |key| <= |command| && command[..|key|] == key
  {
    key <= command
  }

  /** The program entry runs the screensaver `key`: the key is the whole
      first word of the command. */
  predicate Runs(command: string, key: string): (r: bool)
    ensures r ==> StartsWith(command, key)
    ensures r <==> command == key || (StartsWith(command, key) && |key| < |command| && IsSpace(command[|key|]))
  {
    key <= command && (|command| == |key| || IsSpace(command[|key|]))
  }

  /** The position of the first program entry that `owns` assigns to `key`. */
  function FirstOwned(programs: seq<Program>, key: string, owns: (string, string) -> bool): (r: Option<nat>)
    ensures r.Some? ==> r.value < |programs| && owns(programs[r.value].command, key)
    ensures r.Some? ==> forall j :: 0 <= j < r.value ==> !owns(programs[j].command, key)
    ensures r.None? ==> forall j :: 0 <= j < |programs| ==> !owns(programs[j].command, key)
    decreases |programs|
  {
    if programs == [] then None
    else if owns(programs[0].command, key) then Some(0)
    else
      match FirstOwned(programs[1..], key, owns)
      case None => None
      case Some(i) => Some(i + 1)
  }

  /** `_find_xscreensaver_user_config_item`: the index and entry of the first
      program assigned to the key, `(0, None)` when there is none. */
  method FindProgram(programs: seq<Program>, key: string, owns: (string, string) -> bool) returns (index: nat, program: Option<Program>)
    ensures FirstOwned(programs, key, owns).Some? ==>
              index == FirstOwned(programs, key, owns).value && program == Some(programs[index])
    ensures FirstOwned(programs, key, owns).None? ==> index == 0 && program == None
  {
    var i := 0;
    while i < |programs|
      invariant 0 <= i <= |programs|
      invariant forall j :: 0 <= j < i ==> !owns(programs[j].command, key)
    {
      if owns(programs[i].command, key) {
        return i, Some(programs[i]);
      }
      i := i + 1;
    }
    return 0, None;
  }

  /** A program entry after the rewrite: the new command and enabled flag
      where `owns` assigns it to the key, unchanged otherwise. */
  function RewriteOne(p: Program, key: string, owns: (string, string) -> bool, command: string, enabled: bool): (r: Program)
    ensures owns(p.command, key) ==> r.command == command && r.enabled == enabled && r.(command := p.command, enabled := p.enabled) == p
    ensures !owns(p.command, key) ==> r == p
  {
    if owns(p.command, key) then p.(command := command, enabled := enabled) else p
  }

  /** The programs list after the rewrite: same length and order. */
  function Rewritten(programs: seq<Program>, key: string, owns: (string, string) -> bool, command: string, enabled: bool): (r: seq<Program>)
    ensures |r| == |programs|
    ensures forall i :: 0 <= i < |programs| ==> r[i] == RewriteOne(programs[i], key, owns, command, enabled)
  {
    seq(|programs|, i requires 0 <= i < |programs| => RewriteOne(programs[i], key, owns, command, enabled))
  }

  /** The rewrite loop of `on_set_plugin_config_item`: every entry assigned to
      the key gets the new command and enabled flag, every other entry is
      kept, in order. */
  method RewritePrograms(programs: seq<Program>, key: string, owns: (string, string) -> bool, command: string, enabled: bool)
    returns (r: seq<Program>)
    ensures r == Rewritten(programs, key, owns, command, enabled)
  {
    r := [];
    var i := 0;
    while i < |programs|
      invariant 0 <= i <= |programs|
      invariant |r| == i
      invariant forall j :: 0 <= j < i ==> r[j] == RewriteOne(programs[j], key, owns, command, enabled)
    {
      var program := programs[i];
      if owns(program.command, key) {
        program := program.(command := command, enabled := enabled);
      }
      r := r + [program];
      i := i + 1;
    }
  }

  /** When the new command is itself assigned to the key, the rewrite keeps
      which entry the lookup finds, and that entry now holds the new command. */
  lemma RewriteKeepsLookup(programs: seq<Program>, key: string, owns: (string, string) -> bool, command: string, enabled: bool)
    requires owns(command, key)
    ensures var after := Rewritten(programs, key, owns, command, enabled);
      FirstOwned(after, key, owns) == FirstOwned(programs, key, owns) &&
      (FirstOwned(after, key, owns).Some? ==> after[FirstOwned(after, key, owns).value].command == command)
  {
    var after := Rewritten(programs, key, owns, command, enabled);
    assert forall j :: 0 <= j < |programs| ==> (owns(after[j].command, key) <==> owns(programs[j].command, key));
    match FirstOwned(programs, key, owns)
    case None =>
    case Some(k) =>
      assert owns(after[k].command, key);
  }

  /** Rewriting twice with the same command is rewriting once. */
  lemma RewriteIdempotent(programs: seq<Program>, key: string, owns: (string, string) -> bool, command: string, enabled: bool)
    requires owns(command, key)
    ensures var once := Rewritten(programs, key, owns, command, enabled);
      Rewritten(once, key, owns, command, enabled) == once
  {
    var once := Rewritten(programs, key, owns, command, enabled);
    var twice := Rewritten(once, key, owns, command, enabled);
    assert forall i :: 0 <= i < |once| ==> twice[i] == once[i];
  }

  /** `startswith` assigns `antspotlight -root` to the screensaver `ant`: the
      lookup finds the wrong entry and the rewrite overwrites it. Matching the
      whole first word finds the entry of `ant`. */
  lemma PrefixCollisionExample()
    ensures var programs := [Program("antspotlight -root", true, map[]), Program("ant -root", true, map[])];
      && FirstOwned(programs, "ant", StartsWith) == Some(0)
      && Rewritten(programs, "ant", StartsWith, "ant -root -count 4", true)[0].command == "ant -root -count 4"
      && FirstOwned(programs, "ant", Runs) == Some(1)
      && Rewritten(programs, "ant", Runs, "ant -root -count 4", true)[0] == programs[0]
  {
    var programs := [Program("antspotlight -root", true, map[]), Program("ant -root", true, map[])];
    assert "ant" <= programs[0].command;
    assert !Runs(programs[0].command, "ant") by {
      assert programs[0].command[3] == 's';
    }
    assert Runs(programs[1].command, "ant") by {
      assert programs[1].command[3] == ' ';
    }
  }

  /** With whole-word matching no command belongs to two different keys
      without spaces. */
  lemma RunsOneKey(command: string, a: string, b: string)
    requires ' ' !in a && ' ' !in b
    requires forall i :: 0 <= i < |a| ==> !IsSpace(a[i])
    requires forall i :: 0 <= i < |b| ==> !IsSpace(b[i])
    requires Runs(command, a) && Runs(command, b)
    ensures a == b
  {
  }

  // ---------------------------------------------------------------------
  // Writing back

  /** What `on_set_plugin_config_item` writes for one screensaver: the
      rewritten programs list and, when the item is selected, its index. */
  datatype UserUpdate = UserUpdate(programs: seq<Program>, selected: Option<nat>)

  /** The screensaver branch of `on_set_plugin_config_item`: an unknown key
      raises `SetException`; otherwise every entry of the screensaver gets the
      command built from the submitted values and the enabled flag, other
      entries are kept, and a selected item records the index of the first
      entry of the screensaver, or 0 when there is none. */
  function ScreensaverUpdate(config: map<string, Screensaver>, programs: seq<Program>, key: string,
                             values: map<string, PyValue>, enabled: bool, isSelected: bool): (r: Result<UserUpdate>)
    ensures key !in config ==> r == Err(SetException)
    ensures key in config ==> (r.Err? <==> CommandLine(config[key], values).Err?)
    ensures r.Ok? ==> |r.value.programs| == |programs|
    ensures r.Ok? ==> r.value.programs == Rewritten(programs, key, Runs, CommandLine(config[key], values).value, enabled)
    ensures r.Ok? ==> forall i :: 0 <= i < |programs| ==>
      r.value.programs[i] == if Runs(programs[i].command, key)
        then programs[i].(command := CommandLine(config[key], values).value, enabled := enabled)
        else programs[i]
    ensures r.Ok? ==> (r.value.selected.Some? <==> isSelected)
    ensures r.Ok? && isSelected && FirstOwned(programs, key, Runs).Some? ==>
      r.value.selected == FirstOwned(programs, key, Runs)
    ensures r.Ok? && isSelected && FirstOwned(programs, key, Runs).None? ==> r.value.selected == Some(0)
  {
    if key !in config then Err(SetException)
    else
      var index := match FirstOwned(programs, key, Runs) case Some(i) => i case None => 0;
      var command :- CommandLine(config[key], values);
      Ok(UserUpdate(Rewritten(programs, key, Runs, command, enabled), if isSelected then Some(index) else None))
  }

  // ---------------------------------------------------------------------
  // Global settings

  /** `v > 0` for the lock timeout. */
  function Positive(v: PyValue): (r: Result<bool>)
    ensures v.Int? ==> r == Ok(v.i > 0)
    ensures v.Bool? ==> r == Ok(v.b)
  {
    match v
    case Int(i) => Ok(i > 0)
    case Bool(b) => Ok(b)
    case Float(_) => Err(Unmodelled("float comparison"))
    case Null => Err(TypeError)
    case Str(_) => Err(TypeError)
  }

  /** `'True' if v else 'False'`. */
  function Flag(v: PyValue): (r: string)
    ensures r == "True" <==> Truthy(v)
    ensures r == "True" || r == "False"
  {
    if Truthy(v) then "True" else "False"
  }

  /** The text of `textLiteral` as saved: a literal `\n` is doubled; a value
      that is not a string has no `replace` and raises `AttributeError`. */
  function SaveTextLiteral(v: PyValue): (r: Result<string>)
    ensures v.Str? ==> r.Ok? && UnescapeNewlines(r.value) == v.s
    ensures !v.Str? ==> r == Err(AttributeError)
  {
    match v
    case Str(s) => UnescapeEscape(s); Ok(EscapeNewlines(s))
    case _ => Err(AttributeError)
  }

  /** The `textLiteral` value of the settings form, read from the file. */
  function LoadTextLiteral(v: PyValue): (r: Result<string>)
    ensures !v.Str? ==> r == Err(AttributeError)
  {
    match v
    case Str(s) => Ok(UnescapeNewlines(s))
    case _ => Err(AttributeError)
  }

  /** Loading gives back what was saved. */
  lemma TextLiteralRoundTrip(text: string)
    ensures LoadTextLiteral(Str(SaveTextLiteral(Str(text)).value)) == Ok(text)
  {
  }

  /** The settings written to the file for the global item, one field per
      key of the dictionary. */
  datatype GlobalUpdate = GlobalUpdate(
    mode: PyValue,
    timeout: string,
    cycle: string,
    lockTimeout: string,
    lock: string,
    grabDesktopImages: string,
    grabVideoFrames: string,
    chooseRandomImages: string,
    imageDirectory: PyValue,
    textMode: PyValue,
    textLiteral: string,
    textFile: PyValue,
    textProgram: PyValue,
    textURL: PyValue)

  /** The global-settings branch of `on_set_plugin_config_item`, evaluated in
      the order of its dictionary display: the three times, the lock flag,
      the text literal; the other keys pass through or become flags. */
  function GlobalSettings(values: map<string, PyValue>): (r: Result<GlobalUpdate>)
    ensures Lookup(values, "timeout").Null? ==> r == Err(TypeError)
    ensures r.Err? <==> TimeOf(Lookup(values, "timeout")).Err? || TimeOf(Lookup(values, "cycle")).Err? ||
                        TimeOf(Lookup(values, "lockTimeout")).Err? || !Lookup(values, "textLiteral").Str?
    ensures r.Ok? ==> (r.value.lock == "True" <==> Positive(Lookup(values, "lockTimeout")) == Ok(true))
    ensures r.Ok? ==> r.value.lock == "True" || r.value.lock == "False"
    ensures r.Ok? ==> (r.value.grabDesktopImages == "True" <==> Truthy(Lookup(values, "grabDesktopImages")))
    ensures r.Ok? ==> (r.value.grabVideoFrames == "True" <==> Truthy(Lookup(values, "grabVideoFrames")))
    ensures r.Ok? ==> (r.value.chooseRandomImages == "True" <==> Truthy(Lookup(values, "chooseRandomImages")))
    ensures r.Ok? ==> r.value.mode == Lookup(values, "mode") && r.value.imageDirectory == Lookup(values, "imageDirectory")
    ensures r.Ok? ==> r.value.textMode == Lookup(values, "textMode") && r.value.textFile == Lookup(values, "textFile")
    ensures r.Ok? ==> r.value.textProgram == Lookup(values, "textProgram") && r.value.textURL == Lookup(values, "textURL")
    ensures r.Ok? ==> LoadTextLiteral(Str(r.value.textLiteral)) == Ok(Lookup(values, "textLiteral").s)
  {
    var lockTimeout := Lookup(values, "lockTimeout");
    var timeout :- TimeOf(Lookup(values, "timeout"));
    var cycle :- TimeOf(Lookup(values, "cycle"));
    var lockTime :- TimeOf(lockTimeout);
    // `lockTimeout > 0` cannot raise here: `timedelta` accepted the value.
    var lock := Positive(lockTimeout) == Ok(true);
    var text :- SaveTextLiteral(Lookup(values, "textLiteral"));
    Ok(GlobalUpdate(
      Lookup(values, "mode"),
      timeout,
      cycle,
      lockTime,
      if lock then "True" else "False",
      Flag(Lookup(values, "grabDesktopImages")),
      Flag(Lookup(values, "grabVideoFrames")),
      Flag(Lookup(values, "chooseRandomImages")),
      Lookup(values, "imageDirectory"),
      Lookup(values, "textMode"),
      text,
      Lookup(values, "textFile"),
      Lookup(values, "textProgram"),
      Lookup(values, "textURL")))
  }

  /** The lock is on exactly when the lock timeout is positive, and each
      time within a day reads back from the file as the submitted seconds. */
  lemma GlobalSettingsTimes(values: map<string, PyValue>, timeout: int, cycle: int, lockTimeout: int)
    requires Lookup(values, "timeout") == Int(timeout) && 0 <= timeout < 86400
    requires Lookup(values, "cycle") == Int(cycle) && 0 <= cycle < 86400
    requires Lookup(values, "lockTimeout") == Int(lockTimeout) && 0 <= lockTimeout < 86400
    requires Lookup(values, "textLiteral").Str?
    ensures GlobalSettings(values).Ok?
    ensures GlobalSettings(values).value.lock == if lockTimeout > 0 then "True" else "False"
    ensures FromTime(GlobalSettings(values).value.timeout) == Ok(timeout)
    ensures FromTime(GlobalSettings(values).value.cycle) == Ok(cycle)
    ensures FromTime(GlobalSettings(values).value.lockTimeout) == Ok(lockTimeout)
  {
    TimeRoundTrip(timeout);
    TimeRoundTrip(cycle);
    TimeRoundTrip(lockTimeout);
  }
}
