/** `_escape_md`: backslash-escaping of Markdown metacharacters by seven chained
    `str.replace` calls, and its equivalence with a per-character substitution. */
module MdEscape {

  datatype Option<T> = None | Some(value: T)

  /** Python's `s.replace(c, r)` for a one-character pattern: every occurrence
      of `c`, scanned left to right, is replaced by `r`; the replacements are
      never scanned again. */
  function Replace(s: string, c: char, r: string): (t: string)
  {
    if s == [] then [] else (if s[0] == c then r else [s[0]]) + Replace(s[1..], c, r)
  }

  /** The chain as written: backslash first, then backtick (whose replacement
      is the three characters backslash, backtick, backtick), then `*`, `_`,
      `[`, `]` and `#`. */
  function EscapeMd(text: string): (r: string)
  {
    Replace(Replace(Replace(Replace(Replace(Replace(Replace(
      text, '\\', "\\\\"), '`', "\\``"), '*', "\\*"), '_', "\\_"), '[', "\\["), ']', "\\]"), '#', "\\#")
  }

  /** The seven characters the chain rewrites. */
  predicate IsSpecial(c: char) {
    c == '\\' || c == '`' || c == '*' || c == '_' || c == '[' || c == ']' || c == '#'
  }

  /** What one input character becomes. */
  function EscapeChar(c: char): (r: string)
    ensures IsSpecial(c) ==> |r| >= 2 && r[0] == '\\' && r[1] == c
    ensures !IsSpecial(c) ==> r == [c]
    ensures |r| == if c == '`' then 3 else if IsSpecial(c) then 2 else 1
    ensures c == '`' ==> r == "\\``"
  {
    if c == '`' then "\\``"
    else if IsSpecial(c) then ['\\', c]
    else [c]
  }

  /** The per-character substitution applied to a whole string. */
  function EscapeEach(s: string): (r: string)
  {
    if s == [] then [] else EscapeChar(s[0]) + EscapeEach(s[1..])
  }

  lemma {:induction false} ReplaceAppend(a: string, b: string, c: char, r: string)
    ensures Replace(a + b, c, r) == Replace(a, c, r) + Replace(b, c, r)
  {
    if a != [] {
      assert (a + b)[1..] == a[1..] + b;
      ReplaceAppend(a[1..], b, c, r);
    } else {
      assert a + b == b;
    }
  }

  lemma {:induction false} ReplaceAbsent(s: string, c: char, r: string)
    requires c !in s
    ensures Replace(s, c, r) == s
  {
    if s != [] {
      ReplaceAbsent(s[1..], c, r);
    }
  }

  lemma EscapeAppend(a: string, b: string)
    ensures EscapeMd(a + b) == EscapeMd(a) + EscapeMd(b)
  {
    var s1a, s1b := Replace(a, '\\', "\\\\"), Replace(b, '\\', "\\\\");
    ReplaceAppend(a, b, '\\', "\\\\");
    var s2a, s2b := Replace(s1a, '`', "\\``"), Replace(s1b, '`', "\\``");
    ReplaceAppend(s1a, s1b, '`', "\\``");
    var s3a, s3b := Replace(s2a, '*', "\\*"), Replace(s2b, '*', "\\*");
    ReplaceAppend(s2a, s2b, '*', "\\*");
    var s4a, s4b := Replace(s3a, '_', "\\_"), Replace(s3b, '_', "\\_");
    ReplaceAppend(s3a, s3b, '_', "\\_");
    var s5a, s5b := Replace(s4a, '[', "\\["), Replace(s4b, '[', "\\[");
    ReplaceAppend(s4a, s4b, '[', "\\[");
    var s6a, s6b := Replace(s5a, ']', "\\]"), Replace(s5b, ']', "\\]");
    ReplaceAppend(s5a, s5b, ']', "\\]");
    ReplaceAppend(s6a, s6b, '#', "\\#");
  }

  lemma ReplaceOne(x: char, c: char, r: string)
    ensures Replace([x], c, r) == if x == c then r else [x]
  {
    assert [x][1..] == [];
  }

  /** A backslash is doubled by the first step and left alone by the six others. */
  lemma EscapeOneBackslash(x: char)
    requires x == '\\'
    ensures EscapeMd([x]) == EscapeChar(x)
  {
    var e := EscapeChar(x);
    ReplaceOne(x, '\\', e);
    ReplaceAbsent(e, '`', "\\``");
    ReplaceAbsent(e, '*', "\\*");
    ReplaceAbsent(e, '_', "\\_");
    ReplaceAbsent(e, '[', "\\[");
    ReplaceAbsent(e, ']', "\\]");
    ReplaceAbsent(e, '#', "\\#");
  }

  /** A backtick passes the first step, becomes backslash and two backticks
      at the second, and is left alone by the five others. */
  lemma EscapeOneBacktick(x: char)
    requires x == '`'
    ensures EscapeMd([x]) == EscapeChar(x)
  {
    var e := EscapeChar(x);
    ReplaceOne(x, '\\', "\\\\");
    ReplaceOne(x, '`', e);
    ReplaceAbsent(e, '*', "\\*");
    ReplaceAbsent(e, '_', "\\_");
    ReplaceAbsent(e, '[', "\\[");
    ReplaceAbsent(e, ']', "\\]");
    ReplaceAbsent(e, '#', "\\#");
  }

  lemma EscapeOneStar(x: char)
    requires x == '*'
    ensures EscapeMd([x]) == EscapeChar(x)
  {
    var e := EscapeChar(x);
    ReplaceOne(x, '\\', "\\\\");
    ReplaceOne(x, '`', "\\``");
    ReplaceOne(x, '*', e);
    ReplaceAbsent(e, '_', "\\_");
    ReplaceAbsent(e, '[', "\\[");
    ReplaceAbsent(e, ']', "\\]");
    ReplaceAbsent(e, '#', "\\#");
  }

  lemma EscapeOneUnderscore(x: char)
    requires x == '_'
    ensures EscapeMd([x]) == EscapeChar(x)
  {
    var e := EscapeChar(x);
    ReplaceOne(x, '\\', "\\\\");
    ReplaceOne(x, '`', "\\``");
    ReplaceOne(x, '*', "\\*");
    ReplaceOne(x, '_', e);
    ReplaceAbsent(e, '[', "\\[");
    ReplaceAbsent(e, ']', "\\]");
    ReplaceAbsent(e, '#', "\\#");
  }

  lemma EscapeOneOpen(x: char)
    requires x == '['
    ensures EscapeMd([x]) == EscapeChar(x)
  {
    var e := EscapeChar(x);
    ReplaceOne(x, '\\', "\\\\");
    ReplaceOne(x, '`', "\\``");
    ReplaceOne(x, '*', "\\*");
    ReplaceOne(x, '_', "\\_");
    ReplaceOne(x, '[', e);
    ReplaceAbsent(e, ']', "\\]");
    ReplaceAbsent(e, '#', "\\#");
  }

  lemma EscapeOneClose(x: char)
    requires x == ']'
    ensures EscapeMd([x]) == EscapeChar(x)
  {
    var e := EscapeChar(x);
    ReplaceOne(x, '\\', "\\\\");
    ReplaceOne(x, '`', "\\``");
    ReplaceOne(x, '*', "\\*");
    ReplaceOne(x, '_', "\\_");
    ReplaceOne(x, '[', "\\[");
    ReplaceOne(x, ']', e);
    ReplaceAbsent(e, '#', "\\#");
  }

  /** Any other character passes all seven steps; `#` is escaped by the last. */
  lemma EscapeOneRest(x: char)
    requires x != '\\' && x != '`' && x != '*' && x != '_' && x != '[' && x != ']'
    ensures EscapeMd([x]) == EscapeChar(x)
  {
    ReplaceOne(x, '\\', "\\\\");
    ReplaceOne(x, '`', "\\``");
    ReplaceOne(x, '*', "\\*");
    ReplaceOne(x, '_', "\\_");
    ReplaceOne(x, '[', "\\[");
    ReplaceOne(x, ']', "\\]");
    ReplaceOne(x, '#', "\\#");
  }

  /** On one character, the chain is the substitution: a step never rewrites
      what an earlier step produced. */
  lemma EscapeOne(x: char)
    ensures EscapeMd([x]) == EscapeChar(x)
  {
    if x == '\\' {
      EscapeOneBackslash(x);
    } else if x == '`' {
      EscapeOneBacktick(x);
    } else if x == '*' {
      EscapeOneStar(x);
    } else if x == '_' {
      EscapeOneUnderscore(x);
    } else if x == '[' {
      EscapeOneOpen(x);
    } else if x == ']' {
      EscapeOneClose(x);
    } else {
      EscapeOneRest(x);
    }
  }

  /** The seven-step chain equals the per-character substitution: backslashes
      inserted by later steps are never escaped again. */
  lemma {:induction false} EscapeIsCharMap(s: string)
    ensures EscapeMd(s) == EscapeEach(s)
  {
    if s == [] {
      assert EscapeMd(s) == [];
    } else {
      assert s == [s[0]] + s[1..];
      EscapeAppend([s[0]], s[1..]);
      EscapeOne(s[0]);
      EscapeIsCharMap(s[1..]);
    }
  }

  /** Number of special characters in `s`, backticks counted twice (each
      backtick grows by two characters, every other special by one). */
  function Growth(s: string): (r: nat)
  {
    if s == [] then 0
    else (if s[0] == '`' then 2 else if IsSpecial(s[0]) then 1 else 0) + Growth(s[1..])
  }

  lemma {:induction false} EscapeEachLength(s: string)
    ensures |EscapeEach(s)| == |s| + Growth(s)
    ensures Growth(s) == 0 <==> forall i :: 0 <= i < |s| ==> !IsSpecial(s[i])
  {
    if s != [] {
      EscapeEachLength(s[1..]);
      assert forall i :: 1 <= i < |s| ==> s[i] == s[1..][i - 1];
    }
  }

  /** The output is never shorter than the input, and has the same length
      exactly when the input holds no special character. */
  lemma EscapeLength(text: string)
    ensures |EscapeMd(text)| == |text| + Growth(text) >= |text|
    ensures |EscapeMd(text)| == |text| <==> forall i :: 0 <= i < |text| ==> !IsSpecial(text[i])
  {
    EscapeIsCharMap(text);
    EscapeEachLength(text);
  }

  lemma {:induction false} EscapeEachIdentity(s: string)
    requires forall i :: 0 <= i < |s| ==> !IsSpecial(s[i])
    ensures EscapeEach(s) == s
  {
    if s != [] {
      assert forall i :: 0 <= i < |s[1..]| ==> s[1..][i] == s[i + 1];
      EscapeEachIdentity(s[1..]);
    }
  }

  /** A string holding none of the seven characters is left unchanged. */
  lemma EscapeIdentity(text: string)
    requires forall i :: 0 <= i < |text| ==> !IsSpecial(text[i])
    ensures EscapeMd(text) == text
  {
    EscapeIsCharMap(text);
    EscapeEachIdentity(text);
  }

  /** Reads escaped text back: a backslash followed by a backslash or by one
      of `*_[]#` stands for that character, a backslash followed by two
      backticks stands for one backtick, and any other character stands for
      itself unless it is special, which escaped text never holds bare. */
  function Unescape(s: string): (r: Option<string>)
  {
    if s == [] then Some([])
    else if s[0] == '\\' then
      if |s| >= 3 && s[1] == '`' && s[2] == '`' then Prepend('`', Unescape(s[3..]))
      else if |s| >= 2 && IsSpecial(s[1]) && s[1] != '`' then Prepend(s[1], Unescape(s[2..]))
      else None
    else if IsSpecial(s[0]) then None
    else Prepend(s[0], Unescape(s[1..]))
  }

  function Prepend(c: char, o: Option<string>): (r: Option<string>)
  {
    if o.Some? then Some([c] + o.value) else None
  }

  lemma {:induction false} UnescapeEach(s: string)
    ensures Unescape(EscapeEach(s)) == Some(s)
  {
    if s != [] {
      var c, rest := s[0], EscapeEach(s[1..]);
      var e := EscapeChar(c) + rest;
      UnescapeEach(s[1..]);
      if c == '`' {
        assert e[3..] == rest;
      } else if IsSpecial(c) {
        assert e[2..] == rest;
      } else {
        assert e[1..] == rest;
      }
      assert [s[0]] + s[1..] == s;
    }
  }

  /** Escaping is undone by `Unescape`: no information is lost. */
  lemma EscapeRoundTrip(text: string)
    ensures Unescape(EscapeMd(text)) == Some(text)
  {
    EscapeIsCharMap(text);
    UnescapeEach(text);
  }

  /** Hence distinct texts escape to distinct output. */
  lemma EscapeInjective(a: string, b: string)
    requires EscapeMd(a) == EscapeMd(b)
    ensures a == b
  {
    EscapeRoundTrip(a);
    EscapeRoundTrip(b);
  }
}
