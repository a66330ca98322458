/** The two lookups that read an option's current value back from the
    command stored in the user's program entry: `_find_argument_value`, a
    regular-expression search derived from the option's `arg` template, and
    `_find_argument_set`, a substring test. */
module ArgumentSearch {
  import opened PyValues
  import opened PyText
  import opened Schema

  /** The characters with a meaning of their own in a Python regular
      expression outside a character class. */
  predicate IsRegexMeta(c: char) {
    c in "\\.^$*+?{}[]|()"
  }

  /** The regular expression a template turns into, once its spaces are
      removed and `%` becomes `\s+(\S+)`, in the two shapes the model reads:
      a plain literal (no `%`), or a literal prefix followed by the capture.
      Any other shape is `Unsupported`. */
  datatype Pattern = Literal(text: string) | Capture(prefix: string) | Unsupported

  function PatternOf(template: string): (p: Pattern)
    ensures p.Literal? ==> '%' !in p.text && ' ' !in p.text
    ensures p.Capture? ==> '%' !in p.prefix && ' ' !in p.prefix
  {
    var t := Replace(template, " ", "");
    NoSpaceLeft(template);
    if exists i :: 0 <= i < |t| && IsRegexMeta(t[i]) then Unsupported
    else if '%' !in t then Literal(t)
    else if t[|t| - 1] == '%' && '%' !in t[..|t| - 1] then Capture(t[..|t| - 1])
    else Unsupported
  }

  lemma {:induction false} NoSpaceLeft(s: string)
    ensures ' ' !in Replace(s, " ", "")
    decreases |s|
  {
    if s != [] {
      NoSpaceLeft(s[1..]);
      if " " <= s {
        assert s[|" "|..] == s[1..];
      }
    }
  }

  /** The template `flag %` of a flag with no space, `%` or metacharacter. */
  lemma PatternOfFlag(flag: string)
    requires ' ' !in flag && '%' !in flag
    requires forall i :: 0 <= i < |flag| ==> !IsRegexMeta(flag[i])
    ensures PatternOf(flag + " %") == Capture(flag)
  {
    ReplaceAtFirst(flag, ' ', "%", "");
    ReplaceAbsent("%", " ", "");
    var t := flag + "%";
    assert flag + " %" == flag + [' '] + "%";
    assert Replace(flag + " %", " ", "") == t;
    assert t[..|t| - 1] == flag;
    assert forall i :: 0 <= i < |t| ==> !IsRegexMeta(t[i]) by {
      forall i | 0 <= i < |t|
        ensures !IsRegexMeta(t[i])
      {
        if i < |flag| {
          assert t[i] == flag[i];
        }
      }
    }
  }

  /** The end of the run of whitespace that starts at `j`. */
  function SpaceEnd(c: string, j: nat): (k: nat)
    requires j <= |c|
    ensures j <= k <= |c|
    ensures forall m :: j <= m < k ==> IsSpace(c[m])
    ensures k < |c| ==> !IsSpace(c[k])
    decreases |c| - j
  {
    if j < |c| && IsSpace(c[j]) then SpaceEnd(c, j + 1) else j
  }

  /** The end of the run of non-whitespace that starts at `j`. */
  function WordEnd(c: string, j: nat): (k: nat)
    requires j <= |c|
    ensures j <= k <= |c|
    ensures forall m :: j <= m < k ==> !IsSpace(c[m])
    ensures k < |c| ==> IsSpace(c[k])
    decreases |c| - j
  {
    if j < |c| && !IsSpace(c[j]) then WordEnd(c, j + 1) else j
  }

  /** `prefix\s+(\S+)` matches at position `i` of `c`: the prefix, at least
      one whitespace character, then at least one other character. */
  predicate MatchAt(c: string, i: nat, prefix: string) {
    var j := i + |prefix|;
    j < |c| && prefix <= c[i..] && IsSpace(c[j]) && SpaceEnd(c, j) < |c|
  }

  /** `re.search`: the leftmost position, from `from` on, where the pattern
      matches. */
  function FirstMatch(c: string, prefix: string, from: nat): (r: Option<nat>)
    requires from <= |c|
    ensures r.Some? ==> from <= r.value <= |c| && MatchAt(c, r.value, prefix)
    ensures r.Some? ==> forall j :: from <= j < r.value ==> !MatchAt(c, j, prefix)
    ensures r.None? ==> forall j :: from <= j <= |c| ==> !MatchAt(c, j, prefix)
    decreases |c| - from
  {
    if MatchAt(c, from, prefix) then Some(from)
    else if from == |c| then None
    else FirstMatch(c, prefix, from + 1)
  }

  /** `group(1)` of a match at `i`: the maximal run of non-whitespace after
      the prefix and the whitespace. */
  function Captured(c: string, i: nat, prefix: string): (w: string)
    requires MatchAt(c, i, prefix)
    ensures w != [] && forall m :: 0 <= m < |w| ==> !IsSpace(w[m])
  {
    var k := SpaceEnd(c, i + |prefix|);
    c[k..WordEnd(c, k)]
  }

  /** `.strip('"').strip("'")`. */
  function StripQuotes(w: string): (r: string)
    ensures r != [] ==> r[0] != '\'' && r[|r| - 1] != '\''
    ensures (w == [] || (w[0] !in "'\"" && w[|w| - 1] !in "'\"")) ==> r == w
  {
    Strip(Strip(w, '"'), '\'')
  }

  /** The command of the user's program entry, where there is a non-empty one. */
  function StoredCommand(user: Option<Program>): (r: Option<string>)
    ensures r.Some? <==> user.Some? && user.value.command != []
    ensures r.Some? ==> r.value == user.value.command
  {
    if user.Some? && user.value.command != [] then Some(user.value.command) else None
  }

  /** `_find_argument_value`: `None` without a stored command; a template
      without `%` has no group to return, so a literal match raises
      `IndexError`; otherwise the captured run of the first match, with
      quotes stripped, or `None` when nothing matches. */
  function FindArgumentValue(user: Option<Program>, template: string): (r: Result<Option<string>>)
    ensures StoredCommand(user).None? ==> r == Ok(None)
    ensures StoredCommand(user).Some? && PatternOf(template).Capture? ==>
      var c, p := StoredCommand(user).value, PatternOf(template).prefix;
      r == match FirstMatch(c, p, 0)
        case None => Ok(None)
        case Some(i) => Ok(Some(StripQuotes(Captured(c, i, p))))
    ensures StoredCommand(user).Some? && PatternOf(template).Literal? ==>
      r == if Contains(StoredCommand(user).value, PatternOf(template).text) then Err(IndexError) else Ok(None)
    ensures StoredCommand(user).Some? && PatternOf(template).Unsupported? ==> r.Err? && r.failure.Unmodelled?
  {
    match StoredCommand(user)
    case None => Ok(None)
    case Some(c) =>
      match PatternOf(template)
      case Unsupported => Err(Unmodelled("regular expression"))
      case Literal(t) => if Contains(c, t) then Err(IndexError) else Ok(None)
      case Capture(p) =>
        match FirstMatch(c, p, 0)
        case None => Ok(None)
        case Some(i) => Ok(Some(StripQuotes(Captured(c, i, p))))
  }

  /** `_find_argument_set`: whether the stored command holds the flag. */
  function FindArgumentSet(user: Option<Program>, flag: string): (r: bool)
    ensures r <==> StoredCommand(user).Some? && Contains(StoredCommand(user).value, flag)
  {
    match StoredCommand(user)
    case None => false
    case Some(c) => Contains(c, flag)
  }

  /** A word written as `flag word` into a command is read back by the
      template `flag %`, provided no earlier position of the command matches
      and the word ends at the end of the command or at whitespace. */
  lemma ReadBack(template: string, flag: string, pre: string, word: string, post: string, program: Program)
    requires PatternOf(template) == Capture(flag)
    requires word != [] && forall m :: 0 <= m < |word| ==> !IsSpace(word[m])
    requires post == [] || IsSpace(post[0])
    requires program.command == pre + flag + " " + word + post
    requires forall j :: 0 <= j < |pre| ==> !MatchAt(program.command, j, flag)
    ensures FindArgumentValue(Some(program), template) == Ok(Some(StripQuotes(word)))
  {
    FirstMatchAtFlag(flag, pre, word, post, program.command);
  }

  /** The first match in `pre + flag + " " + word + post` is at the flag, and
      it captures the word. */
  lemma FirstMatchAtFlag(flag: string, pre: string, word: string, post: string, c: string)
    requires word != [] && forall m :: 0 <= m < |word| ==> !IsSpace(word[m])
    requires post == [] || IsSpace(post[0])
    requires c == pre + flag + " " + word + post
    requires forall j :: 0 <= j < |pre| ==> !MatchAt(c, j, flag)
    ensures FirstMatch(c, flag, 0) == Some(|pre|)
    ensures Captured(c, |pre|, flag) == word
  {
    assert c == pre + (flag + " " + word + post);
    MatchHere(pre, flag + " " + word + post, flag, word, post);
  }

  /** The match at the flag captures the word. */
  lemma MatchHere(pre: string, rest: string, flag: string, word: string, post: string)
    requires word != [] && forall m :: 0 <= m < |word| ==> !IsSpace(word[m])
    requires post == [] || IsSpace(post[0])
    requires rest == flag + " " + word + post
    ensures MatchAt(pre + rest, |pre|, flag)
    ensures Captured(pre + rest, |pre|, flag) == word
  {
    var c := pre + rest;
    var i := |pre|;
    var j := i + |flag|;
    assert c[i..] == rest;
    assert c[j] == ' ';
    assert c[j + 1] == word[0];
    assert SpaceEnd(c, j + 1) == j + 1;
    assert SpaceEnd(c, j) == j + 1;
    var e := j + 1 + |word|;
    assert forall m :: j + 1 <= m < e ==> c[m] == word[m - j - 1];
    assert e < |c| ==> c[e] == post[0];
    assert WordEnd(c, e) == e;
    WordRun(c, j + 1, e);
    assert c[j + 1..e] == word;
  }

  /** A run of non-whitespace ends where `WordEnd` says. */
  lemma {:induction false} WordRun(c: string, j: nat, e: nat)
    requires j <= e <= |c|
    requires forall m :: j <= m < e ==> !IsSpace(c[m])
    requires WordEnd(c, e) == e
    ensures WordEnd(c, j) == e
    decreases e - j
  {
    if j < e {
      WordRun(c, j + 1, e);
    }
  }
}
