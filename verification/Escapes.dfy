/**
 Quoting a string and reading it back (`_format_attr_value` and `_unescape_string` in bdc/hs/parse.py).
 */
module Escapes {

  /** `s.replace(a + b, with)`: left to right, without overlap. */
  function Replace(s: string, a: char, b: char, with: string): string {
    if s == "" then ""
    else if |s| >= 2 && s[0] == a && s[1] == b then with + Replace(s[2..], a, b, with)
    else [s[0]] + Replace(s[1..], a, b, with)
  }

  /** `s.replace(c, with)`. */
  function ReplaceChar(s: string, c: char, with: string): string {
    if s == "" then "" else (if s[0] == c then with else [s[0]]) + ReplaceChar(s[1..], c, with)
  }

  /** What goes between the quotes. */
  function Escape(s: string): string {
    ReplaceChar(ReplaceChar(s, '\\', "\\\\"), '\"', "\\\"")
  }

  /** What the reader makes of it: three replacements, one after the other. */
  function Unescape(t: string): string {
    Replace(Replace(Replace(t, '\\', '\"', "\""), '\\', '\\', "\\"), '\\', 'n', "\n")
  }

  predicate HasBackslashN(s: string) {
    exists i :: 0 <= i < |s| - 1 && s[i] == '\\' && s[i + 1] == 'n'
  }

  /** Escaping, character by character. */
  function Escaped(s: string): string {
    if s == "" then ""
    else (if s[0] == '\\' then "\\\\" else if s[0] == '\"' then "\\\"" else [s[0]]) + Escaped(s[1..])
  }

  lemma {:induction false} EscapeIs(s: string)
    ensures Escape(s) == Escaped(s)
  {
    if s != "" {
      EscapeIs(s[1..]);
      var head, tail := if s[0] == '\\' then "\\\\" else [s[0]], ReplaceChar(s[1..], '\\', "\\\\");
      assert ReplaceChar(s, '\\', "\\\\") == head + tail;
      ReplaceConcat(head, tail, '\"', "\\\"");
      if s[0] == '\\' {
        assert "\\\\"[1..] == "\\" && "\\"[1..] == "";
        assert ReplaceChar("\\", '\"', "\\\"") == "\\" + ReplaceChar("", '\"', "\\\"");
        assert ReplaceChar("\\\\", '\"', "\\\"") == "\\" + ReplaceChar("\\", '\"', "\\\"");
      } else {
        assert [s[0]][1..] == "";
      }
    }
  }

  lemma {:induction false} ReplaceOne(s: string, c: char, with: string)
    requires s != ""
    ensures ReplaceChar(s, c, with) == (if s[0] == c then with else [s[0]]) + ReplaceChar(s[1..], c, with)
  {
  }

  lemma {:induction false} ReplaceConcat(s: string, t: string, c: char, with: string)
    ensures ReplaceChar(s + t, c, with) == ReplaceChar(s, c, with) + ReplaceChar(t, c, with)
  {
    if s == "" {
      assert s + t == t;
    } else {
      ReplaceConcat(s[1..], t, c, with);
      ReplaceOne(s, c, with);
      ReplaceOne(s + t, c, with);
      hide ReplaceChar;
      assert (s + t)[1..] == s[1..] + t && (s + t)[0] == s[0];
      var head := if s[0] == c then with else [s[0]];
      Associate(head, ReplaceChar(s[1..], c, with), ReplaceChar(t, c, with));
    }
  }

  lemma {:induction false} Associate(x: string, y: string, z: string)
    ensures x + (y + z) == (x + y) + z
  {
  }

  /** A doubled backslash stays, unless a bare quote follows it. */
  lemma {:induction false} UnquoteBackslash(rest: string)
    requires rest != "" ==> rest[0] != '\"'
    ensures Replace("\\\\" + rest, '\\', '\"', "\"") == "\\\\" + Replace(rest, '\\', '\"', "\"")
  {
    var t := "\\\\" + rest;
    assert t[1..] == "\\" + rest && ("\\" + rest)[1..] == rest;
    assert Replace("\\" + rest, '\\', '\"', "\"") == "\\" + Replace(rest, '\\', '\"', "\"");
  }

  /** Undoing the quotes leaves the backslashes doubled. */
  lemma {:induction false} UnquoteEscaped(s: string)
    ensures Replace(Escaped(s), '\\', '\"', "\"") == ReplaceChar(s, '\\', "\\\\")
    ensures Escaped(s) != "" ==> Escaped(s)[0] != '\"'
  {
    if s != "" {
      var rest := Escaped(s[1..]);
      UnquoteEscaped(s[1..]);
      if s[0] == '\\' {
        UnquoteBackslash(rest);
        assert Escaped(s) == "\\\\" + rest;
      } else if s[0] == '\"' {
        assert Escaped(s)[2..] == rest;
      } else {
        assert Escaped(s)[1..] == rest;
      }
    }
  }

  lemma {:induction false} UndoubleBackslashes(s: string)
    ensures Replace(ReplaceChar(s, '\\', "\\\\"), '\\', '\\', "\\") == s
  {
    if s != "" {
      var doubled := ReplaceChar(s, '\\', "\\\\");
      UndoubleBackslashes(s[1..]);
      if s[0] == '\\' {
        assert doubled[2..] == ReplaceChar(s[1..], '\\', "\\\\");
      } else {
        assert doubled[1..] == ReplaceChar(s[1..], '\\', "\\\\");
      }
    }
  }

  lemma {:induction false} NewlinesIff(s: string)
    ensures Replace(s, '\\', 'n', "\n") == s <==> !HasBackslashN(s)
    ensures |Replace(s, '\\', 'n', "\n")| <= |s|
  {
    if |s| >= 2 && s[0] == '\\' && s[1] == 'n' {
      NewlinesIff(s[2..]);
    } else if s != "" {
      NewlinesIff(s[1..]);
      if HasBackslashN(s) {
        var i :| 0 <= i < |s| - 1 && s[i] == '\\' && s[i + 1] == 'n';
        assert s[1..][i - 1] == '\\' && s[1..][i] == 'n';
      }
      if HasBackslashN(s[1..]) {
        var i :| 0 <= i < |s[1..]| - 1 && s[1..][i] == '\\' && s[1..][i + 1] == 'n';
        assert s[i + 1] == '\\' && s[i + 2] == 'n';
      }
      var r := Replace(s[1..], '\\', 'n', "\n");
      assert Replace(s, '\\', 'n', "\n") == [s[0]] + r;
      assert ([s[0]] + r)[1..] == r;
    }
  }

  /** A quoted string reads back as itself exactly when it holds no backslash followed by `n`. */
  lemma {:induction false} QuotingIff(s: string)
    ensures Unescape(Escape(s)) == s <==> !HasBackslashN(s)
  {
    EscapeIs(s);
    UnquoteEscaped(s);
    UndoubleBackslashes(s);
    NewlinesIff(s);
  }

  /** What the lexer takes between quotes: no bare quote, and a backslash only before a character of its line. */
  ghost predicate Quotable(t: string) {
    t == "" ||
    if t[0] == '\\' then |t| >= 2 && t[1] != '\n' && Quotable(t[2..]) else t[0] != '\"' && Quotable(t[1..])
  }

  /** An escaped string is one token, whatever it holds. */
  lemma {:induction false} EscapedIsQuotable(s: string)
    ensures Quotable(Escape(s))
  {
    EscapeIs(s);
    QuotableEscaped(s);
  }

  lemma {:induction false} QuotableEscaped(s: string)
    ensures Quotable(Escaped(s))
  {
    if s != "" {
      QuotableEscaped(s[1..]);
      var rest := Escaped(s[1..]);
      assert Escaped(s)[if s[0] in {'\\', '\"'} then 2 else 1..] == rest;
    }
  }
}
