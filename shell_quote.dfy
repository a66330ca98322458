/** Shell-safe rendering of option values: `shlex.quote`, the doubling of
    literal `\n` escapes that follows it, and the POSIX reading of the result. */
module ShellQuote {
  import opened PyValues
  import opened PyText

  /** The characters `shlex.quote` leaves unquoted. */
  /** A character `shlex.quote` leaves unquoted: never whitespace, a quote,
      a backslash or a character the shell expands. */
  predicate IsSafe(c: char): (r: bool)
    ensures r ==> !IsSpace(c) && c !in "'\"\\$`;&|<>()*?[]{}!~#"
  {
    ('a' <= c <= 'z') || ('A' <= c <= 'Z') || ('0' <= c <= '9') || c in "_@%+=:,./-"
  }

  predicate AllSafe(s: string) {
    forall i :: 0 <= i < |s| ==> IsSafe(s[i])
  }

  /** A single quote inside a single-quoted word: close the quotes, a
      double-quoted quote, reopen. */
  const QuotedQuote: string := "'\"'\"'"

  /** The two-character escape `\n` and its doubled form `\\n`. */
  const BackslashN: string := "\\n"
  const DoubleBackslashN: string := "\\\\n"

  /** The position of the first `c` in `s`. */
  function IndexOf(s: string, c: char): (r: Option<nat>)
    ensures r.Some? ==> r.value < |s| && s[r.value] == c && c !in s[..r.value]
    ensures r.None? ==> c !in s
  {
    if s == [] then None
    else if s[0] == c then Some(0)
    else match IndexOf(s[1..], c)
      case None => None
      case Some(k) => assert s[..k + 1] == [s[0]] + s[1..][..k]; Some(k + 1)
  }

  /** The word a POSIX shell reads from `t` by the quoting rules of section
      2.2 of the Shell Command Language: single-quoted text is literal,
      double-quoted text is literal when it holds none of `$`, backquote and
      backslash, and an unquoted safe character stands for itself. `None` for
      an unterminated quote and for anything else. */
  function ShellWord(t: string): Option<string>
    decreases |t|
  {
    if t == [] then Some([])
    else if t[0] == '\'' || t[0] == '"' then
      match IndexOf(t[1..], t[0])
      case None => None
      case Some(k) =>
        var body := t[1..k + 1];
        if t[0] == '"' && (exists i :: 0 <= i < |body| && body[i] in "$`\\") then None
        else match ShellWord(t[k + 2..])
          case None => None
          case Some(rest) => Some(body + rest)
    else if IsSafe(t[0]) then
      match ShellWord(t[1..])
      case None => None
      case Some(rest) => Some([t[0]] + rest)
    else None
  }

  /** `shlex.quote(s)`. */
  function Quote(s: string): (r: string)
    ensures s == [] ==> r == "''"
    ensures s != [] && AllSafe(s) ==> r == s
    ensures !AllSafe(s) ==> |r| >= 2 && r[0] == '\'' && r[|r| - 1] == '\''
    ensures ShellWord(r) == Some(s)
  {
    if s == [] then
      assert ShellWord("''") == Some([]) by {
        var e: string := [];
        SingleQuoted(e, e);
        assert "'" + e + "'" + e == "''";
        assert ShellWord(e) == Some(e);
        assert e + e == e;
      }
      "''"
    else if AllSafe(s) then
      SafeWord(s);
      s
    else
      QuotedWord(s, []);
      assert "'" + Replace(s, "'", QuotedQuote) + "'" + [] == "'" + Replace(s, "'", QuotedQuote) + "'";
      assert s + [] == s;
      "'" + Replace(s, "'", QuotedQuote) + "'"
  }

  lemma {:induction false} SafeWord(s: string)
    requires AllSafe(s)
    ensures ShellWord(s) == Some(s)
    decreases |s|
  {
    if s != [] {
      SafeWord(s[1..]);
      assert [s[0]] + s[1..] == s;
    }
  }

  lemma {:induction false} IndexOfAfter(a: string, c: char, b: string)
    requires c !in a
    ensures IndexOf(a + [c] + b, c) == Some(|a|)
    decreases |a|
  {
    if a == [] {
      assert a + [c] + b == [c] + b;
    } else {
      IndexOfAfter(a[1..], c, b);
      assert (a + [c] + b)[1..] == a[1..] + [c] + b;
    }
  }

  /** `w` with `p` in front, where the reading succeeded. */
  function Prepend(p: string, w: Option<string>): Option<string> {
    match w
    case None => None
    case Some(x) => Some(p + x)
  }

  /** A single-quoted segment reads as its body. */
  lemma SingleQuoted(a: string, rest: string)
    requires '\'' !in a
    ensures ShellWord("'" + a + "'" + rest) == Prepend(a, ShellWord(rest))
  {
    var t := "'" + a + "'" + rest;
    assert t[1..] == a + ['\''] + rest;
    IndexOfAfter(a, '\'', rest);
    assert t[1..|a| + 1] == a;
    assert t[|a| + 2..] == rest;
  }

  /** A double-quoted single quote reads as a single quote. */
  lemma DoubleQuotedQuote(rest: string)
    ensures ShellWord("\"'\"" + rest) == Prepend("'", ShellWord(rest))
  {
    var t := "\"'\"" + rest;
    assert t[1..] == ['\''] + ['"'] + rest;
    IndexOfAfter(['\''], '"', rest);
    assert t[1..2] == "'";
    assert t[3..] == rest;
  }

  lemma QuotedSplit(a: string, rb: string, rest: string)
    ensures "'" + (a + QuotedQuote + rb) + "'" + rest == "'" + a + "'" + ("\"'\"" + ("'" + rb + "'" + rest))
  {
  }

  /** The single-quoted rendering of `s`, followed by a word `rest`, reads
      back as `s` followed by what `rest` reads as. */
  lemma {:induction false} QuotedWord(s: string, rest: string)
    ensures ShellWord("'" + Replace(s, "'", QuotedQuote) + "'" + rest) == Prepend(s, ShellWord(rest))
    decreases |s|
  {
    match IndexOf(s, '\'')
    case None =>
      ReplaceAbsent(s, "'", QuotedQuote);
      SingleQuoted(s, rest);
    case Some(k) =>
      var a, b := s[..k], s[k + 1..];
      assert s == a + ['\''] + b;
      ReplaceAtFirst(a, '\'', b, QuotedQuote);
      var rb := Replace(b, "'", QuotedQuote);
      var tail := "'" + rb + "'" + rest;
      QuotedSplit(a, rb, rest);
      SingleQuoted(a, "\"'\"" + tail);
      DoubleQuotedQuote(tail);
      QuotedWord(b, rest);
      PrependTwice(a, b, ShellWord(rest));
  }

  lemma PrependTwice(a: string, b: string, w: Option<string>)
    ensures Prepend(a, Prepend("'", Prepend(b, w))) == Prepend(a + "'" + b, w)
  {
    if w.Some? {
      assert a + ("'" + (b + w.value)) == (a + "'" + b) + w.value;
    }
  }

  /** The doubling of literal `\n` escapes applied after quoting. */
  function EscapeNewlines(s: string): (r: string)
    ensures r == [] <==> s == []
    ensures '\\' !in s ==> r == s
  {
    if '\\' in s then Replace(s, BackslashN, DoubleBackslashN)
    else ReplaceAbsent(s, BackslashN, DoubleBackslashN); Replace(s, BackslashN, DoubleBackslashN)
  }

  /** The reverse replacement, applied when a stored text is loaded. */
  function UnescapeNewlines(s: string): string {
    Replace(s, DoubleBackslashN, BackslashN)
  }

  /** After the doubling, no text begins with a lone `\n` escape. */
  lemma EscapedStart(t: string)
    ensures !(BackslashN <= EscapeNewlines(t))
  {
    var e := EscapeNewlines(t);
    if t == [] {
    } else if BackslashN <= t {
      assert e == DoubleBackslashN + EscapeNewlines(t[2..]);
      assert e[1] == '\\';
    } else {
      var u := t[1..];
      assert e == [t[0]] + EscapeNewlines(u);
      if u == [] {
        assert EscapeNewlines(u) == [];
      } else if t[0] == '\\' {
        assert u[0] != 'n';
        if BackslashN <= u {
          assert EscapeNewlines(u) == DoubleBackslashN + EscapeNewlines(u[2..]);
        } else {
          assert EscapeNewlines(u) == [u[0]] + EscapeNewlines(u[1..]);
        }
        assert e[1] != 'n';
      }
    }
  }

  /** Undoing the doubling gives back the original text. */
  lemma {:induction false} UnescapeEscape(t: string)
    ensures UnescapeNewlines(EscapeNewlines(t)) == t
    decreases |t|
  {
    if t == [] {
    } else if BackslashN <= t {
      UnescapeEscape(t[2..]);
      var x := EscapeNewlines(t[2..]);
      assert EscapeNewlines(t) == DoubleBackslashN + x;
      assert DoubleBackslashN <= DoubleBackslashN + x;
      assert (DoubleBackslashN + x)[3..] == x;
      assert BackslashN + t[2..] == t;
    } else {
      UnescapeEscape(t[1..]);
      var x := EscapeNewlines(t[1..]);
      EscapedStart(t[1..]);
      assert EscapeNewlines(t) == [t[0]] + x;
      assert DoubleBackslashN <= [t[0]] + x ==> BackslashN <= x;
      assert ([t[0]] + x)[1..] == x;
      assert [t[0]] + t[1..] == t;
    }
  }

  /** `_escape_value_for_cli`: `shlex.quote`, then every literal `\n` in the
      quoted text doubled. Undoing the doubling yields the quoted word, which a
      POSIX shell reads back as the value; a non-empty value of safe
      characters is emitted as it is. */
  function EscapeForCli(value: string): (r: string)
    ensures UnescapeNewlines(r) == Quote(value)
    ensures ShellWord(UnescapeNewlines(r)) == Some(value)
    ensures value != [] && AllSafe(value) ==> r == value
    ensures value == [] ==> r == "''"
  {
    EscapeForCliFacts(value);
    EscapeNewlines(Quote(value))
  }

  lemma EscapeForCliFacts(value: string)
    ensures UnescapeNewlines(EscapeNewlines(Quote(value))) == Quote(value)
    ensures value != [] && AllSafe(value) ==> EscapeNewlines(Quote(value)) == value
    ensures value == [] ==> EscapeNewlines(Quote(value)) == "''"
  {
    UnescapeEscape(Quote(value));
    if value != [] && AllSafe(value) {
      assert !IsSafe('\\');
      assert '\\' !in value;
      ReplaceAbsent(value, BackslashN, DoubleBackslashN);
    }
    if value == [] {
      ReplaceAbsent("''", BackslashN, DoubleBackslashN);
    }
  }
}
