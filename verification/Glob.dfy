/** Immutable-tag rules: glob patterns compiled to regular expressions, remembered, and looked up in order. */
module Glob {
  import opened Prelude

  // ---- Regular expressions ----

  datatype Atom = TextStart | TextEnd | AnyButNewline | Literal(c: char)

  /** An atom, once or any number of times. */
  datatype Piece = Piece(atom: Atom, star: bool)

  type Regex = seq<Piece>

  /** After a backslash these ASCII characters stand for themselves. */
  predicate Escapable(c: char) {
    c as int < 128 && !('0' <= c <= '9' || 'a' <= c <= 'z' || 'A' <= c <= 'Z')
  }

  /** Operators that mean something else than themselves; this fragment of the syntax has no use for them unescaped. */
  const OPERATORS := "*+?()[]{}|"

  function ParseAtom(s: string): Option<(Atom, nat)>
    requires s != ""
  {
    if s[0] == '^' then Some((TextStart, 1))
    else if s[0] == '$' then Some((TextEnd, 1))
    else if s[0] == '.' then Some((AnyButNewline, 1))
    else if s[0] == '\\' then if |s| > 1 && Escapable(s[1]) then Some((Literal(s[1]), 2)) else None
    else if s[0] in OPERATORS then None
    else Some((Literal(s[0]), 1))
  }

  /** A sequence of atoms, each possibly starred; a repetition cannot be repeated, nor an anchor. */
  function Parse(s: string): Option<Regex>
    decreases |s|
  {
    if s == "" then Some([]) else
      var atom := ParseAtom(s);
      if atom.None? then None else
        var (a, n) := atom.value;
        if |s| > n && s[n] == '*' then
          if a.TextStart? || a.TextEnd? || (|s| > n + 1 && s[n + 1] in "*+?{") then None
          else Prepend(Piece(a, true), Parse(s[n + 1..]))
        else Prepend(Piece(a, false), Parse(s[n..]))
  }

  function Prepend(p: Piece, rest: Option<Regex>): Option<Regex> {
    if rest.Some? then Some([p] + rest.value) else None
  }

  predicate Accepts(a: Atom, c: char) {
    match a
    case AnyButNewline => c != '\n'
    case Literal(l) => c == l
    case _ => false
  }

  /** A match can begin at position `i`. */
  ghost predicate MatchAt(re: Regex, text: string, i: nat)
    requires i <= |text|
    decreases |re|, |text| - i
  {
    if re == [] then true
    else
      var Piece(a, star) := re[0];
      if star then
        || MatchAt(re[1..], text, i)
        || (i < |text| && Accepts(a, text[i]) && MatchAt(re, text, i + 1))
      else if a.TextStart? then i == 0 && MatchAt(re[1..], text, i)
      else if a.TextEnd? then i == |text| && MatchAt(re[1..], text, i)
      else i < |text| && Accepts(a, text[i]) && MatchAt(re[1..], text, i + 1)
  }

  ghost predicate MatchesBefore(re: Regex, text: string, n: nat) {
    exists i: nat :: i < n && i <= |text| && MatchAt(re, text, i)
  }

  /** The expression matches somewhere in the text. */
  ghost predicate Matches(re: Regex, text: string) {
    MatchesBefore(re, text, |text| + 1)
  }

  // ---- Globs ----

  /** The meaning of a pattern: `*` is any run and `?` any one character, neither a newline; the rest is literal. */
  predicate GlobMatch(pattern: string, tag: string)
    decreases |pattern|, |tag|
  {
    if pattern == "" then tag == ""
    else if pattern[0] == '*' then
      GlobMatch(pattern[1..], tag) || (tag != "" && tag[0] != '\n' && GlobMatch(pattern, tag[1..]))
    else if tag == "" then false
    else (if pattern[0] == '?' then tag[0] != '\n' else tag[0] == pattern[0]) && GlobMatch(pattern[1..], tag[1..])
  }

  const ESCAPED := ".+()[]{}^$|\\"

  function EmitChar(c: char): string {
    if c == '*' then ".*" else if c == '?' then "." else if c in ESCAPED then "\\" + [c] else [c]
  }

  function Body(pattern: string): string {
    if pattern == "" then "" else Body(pattern[..|pattern| - 1]) + EmitChar(pattern[|pattern| - 1])
  }

  function Emit(pattern: string): string {
    "^" + Body(pattern) + "$"
  }

  // ---- Compilation preserves meaning ----

  function PieceOf(c: char): Piece {
    if c == '*' then Piece(AnyButNewline, true) else if c == '?' then Piece(AnyButNewline, false)
        else Piece(Literal(c), false)
  }

  function PiecesToEnd(pattern: string): Regex {
    if pattern == "" then [Piece(TextEnd, false)] else [PieceOf(pattern[0])] + PiecesToEnd(pattern[1..])
  }

  /** What a pattern compiles to. */
  function Compiled(pattern: string): Regex {
    [Piece(TextStart, false)] + PiecesToEnd(pattern)
  }

  lemma {:induction false} BodyFront(pattern: string)
    requires pattern != ""
    ensures Body(pattern) == EmitChar(pattern[0]) + Body(pattern[1..])
  {
    if |pattern| > 1 {
      var init, last := pattern[..|pattern| - 1], pattern[|pattern| - 1];
      BodyFront(init);
      assert init[1..] == pattern[1..][..|pattern| - 2];
    }
  }

  lemma EndParses()
    ensures Parse("$") == Some([Piece(TextEnd, false)])
  {
    var s := "$";
    assert ParseAtom(s) == Some((TextEnd, 1)) && s[1..] == "";
    assert Parse(s[1..]) == Some([]);
    assert Parse(s) == Prepend(Piece(TextEnd, false), Parse(s[1..]));
    assert [Piece(TextEnd, false)] + [] == [Piece(TextEnd, false)];
  }

  lemma {:induction false} BodyParses(pattern: string)
    ensures Parse(Body(pattern) + "$") == Some(PiecesToEnd(pattern))
  {
    if pattern == "" {
      EndParses();
      assert Body(pattern) + "$" == "$";
    } else {
      var c, rest := pattern[0], Body(pattern[1..]) + "$";
      BodyFront(pattern);
      BodyParses(pattern[1..]);
      assert Body(pattern) + "$" == EmitChar(c) + rest;
      OneParses(c, rest);
    }
  }

  /** One pattern character reads back as one piece. */
  lemma OneParses(c: char, rest: string)
    requires rest != "" && rest[0] !in "*+?{"
    ensures Parse(EmitChar(c) + rest) == Prepend(PieceOf(c), Parse(rest))
  {
    var s := EmitChar(c) + rest;
    assert s[|EmitChar(c)|..] == rest;
    if c == '*' {
      assert s[0] == '.' && s[1] == '*' && s[2] == rest[0];
    } else if c == '?' {
      assert s[0] == '.' && s[1] == rest[0];
    } else if c in ESCAPED {
      assert s[0] == '\\' && s[1] == c && s[2] == rest[0];
    } else {
      assert s[0] == c && s[1] == rest[0];
    }
  }

  /** Every pattern compiles; none is ever remembered as broken. */
  lemma EveryPatternParses(pattern: string)
    ensures Parse(Emit(pattern)) == Some(Compiled(pattern))
  {
    var rest := Body(pattern) + "$";
    BodyParses(pattern);
    assert Emit(pattern) == "^" + rest;
    assert ("^" + rest)[1..] == rest && ("^" + rest)[1] == rest[0];
  }

  lemma {:induction false} PiecesMatch(pattern: string, tag: string, i: nat)
    requires i <= |tag|
    ensures MatchAt(PiecesToEnd(pattern), tag, i) <==> GlobMatch(pattern, tag[i..])
    decreases |pattern|, |tag| - i
  {
    var re := PiecesToEnd(pattern);
    if pattern == "" {
      assert re[1..] == [];
    } else {
      assert re[1..] == PiecesToEnd(pattern[1..]);
      assert re[0] == PieceOf(pattern[0]);
      if pattern[0] == '*' {
        PiecesMatch(pattern[1..], tag, i);
      }
      if i < |tag| {
        assert tag[i..][1..] == tag[i + 1..];
        PiecesMatch(if pattern[0] == '*' then pattern else pattern[1..], tag, i + 1);
      }
    }
  }

  /** The compiled expression matches exactly the tags that the pattern means. */
  lemma CompilationPreservesMeaning(pattern: string, tag: string)
    ensures Parse(Emit(pattern)).Some? && (Matches(Parse(Emit(pattern)).value, tag) <==> GlobMatch(pattern, tag))
  {
    EveryPatternParses(pattern);
    var re := Compiled(pattern);
    assert re[1..] == PiecesToEnd(pattern);
    PiecesMatch(pattern, tag, 0);
    assert tag[0..] == tag;
    assert MatchAt(re, tag, 0) <==> GlobMatch(pattern, tag);
  }

  /** A pattern without wildcards protects one tag only. */
  lemma {:induction false} LiteralPattern(pattern: string, tag: string)
    requires '*' !in pattern && '?' !in pattern
    ensures GlobMatch(pattern, tag) <==> pattern == tag
  {
    if pattern != "" && tag != "" {
      LiteralPattern(pattern[1..], tag[1..]);
      assert pattern == [pattern[0]] + pattern[1..] && tag == [tag[0]] + tag[1..];
    }
  }

  // ---- The cache and the check ----

  lemma BodyMore(pattern: string, i: nat)
    requires i < |pattern|
    ensures "^" + Body(pattern[..i]) + EmitChar(pattern[i]) == "^" + Body(pattern[..i + 1])
  {
    assert pattern[..i + 1][..i] == pattern[..i];
    assert "^" + Body(pattern[..i]) + EmitChar(pattern[i]) == "^" + (Body(pattern[..i]) + EmitChar(pattern[i]));
  }

  /** The text handed to the regular-expression compiler. */
  method ExpressionText(pattern: string) returns (text: string)
    ensures text == Emit(pattern)
  {
    text := "^";
    for i := 0 to |pattern|
      invariant text == "^" + Body(pattern[..i])
    {
      BodyMore(pattern, i);
      text := text + EmitChar(pattern[i]);
    }
    assert pattern[..|pattern|] == pattern;
    text := text + "$";
  }

  /** Patterns compiled so far; an entry without a value is a pattern that did not compile. */
  class PatternCache {
    var entries: map<string, Option<Regex>>

    /** Whatever was remembered is what compiling again would give. */
    ghost predicate Valid()
      reads this
    {
      forall p :: p in entries ==> entries[p] == Parse(Emit(p))
    }

    constructor ()
      ensures Valid() && entries == map[]
    {
      entries := map[];
    }

    method PatternRegexp(pattern: string) returns (re: Option<Regex>)
      requires Valid()
      modifies this
      ensures Valid() && re == Some(Compiled(pattern))
      ensures entries == old(entries)[pattern := re]
    {
      EveryPatternParses(pattern);
      if pattern in entries {
        return entries[pattern];
      }
      var text := ExpressionText(pattern);
      re := Parse(text);
      entries := entries[pattern := re];
    }

    method MatchPattern(pattern: string, tag: string) returns (ok: bool)
      requires Valid()
      modifies this
      ensures Valid() && (ok <==> GlobMatch(pattern, tag))
    {
      var re := PatternRegexp(pattern);
      CompilationPreservesMeaning(pattern, tag);
      EveryPatternParses(pattern);
      ok := false;
      if re.Some? {
        ok := MatchString(re.value, tag);
      }
    }

    /**
     * Why a tag may not be overwritten: the repository's mode, or the first rule that matches; rules that
     * cannot be read bind nobody.
     */
    method CheckImmutableTag(reference: string, forceImmutable: bool, rules: Option<seq<string>>)
      returns (r: (bool, string))
      requires Valid()
      modifies this
      ensures Valid()
      ensures r == Verdict(reference, forceImmutable, rules)
    {
      if reference == "" || ':' in reference {
        return (false, "");
      }
      if forceImmutable {
        return (true, "repo-immutable");
      }
      if rules.None? {
        return (false, "");
      }
      for i := 0 to |rules.value|
        invariant Valid() && FirstMatch(rules.value, reference) == FirstMatch(rules.value[i..], reference)
      {
        var ok := MatchPattern(rules.value[i], reference);
        if ok {
          return (true, rules.value[i]);
        }
        assert rules.value[i..][1..] == rules.value[i + 1..];
      }
      r := (false, "");
    }
  }

  /** Runs a compiled expression over a text. */
  method MatchString(re: Regex, text: string) returns (ok: bool)
    ensures ok <==> Matches(re, text)
  {
    ok := false;
    for i := 0 to |text| + 1
      invariant ok <==> MatchesBefore(re, text, i)
    {
      var here := MatchFrom(re, text, i);
      ok := ok || here;
    }
  }

  method MatchFrom(re: Regex, text: string, i: nat) returns (ok: bool)
    requires i <= |text|
    ensures ok <==> MatchAt(re, text, i)
    decreases |re|, |text| - i
  {
    if re == [] {
      return true;
    }
    var Piece(a, star) := re[0];
    if star {
      ok := MatchFrom(re[1..], text, i);
      if !ok && i < |text| && Accepts(a, text[i]) {
        ok := MatchFrom(re, text, i + 1);
      }
    } else if a.TextStart? || a.TextEnd? {
      ok := false;
      if i == (if a.TextStart? then 0 else |text|) {
        ok := MatchFrom(re[1..], text, i);
      }
    } else {
      ok := false;
      if i < |text| && Accepts(a, text[i]) {
        ok := MatchFrom(re[1..], text, i + 1);
      }
    }
  }

  function FirstMatch(rules: seq<string>, reference: string): (bool, string) {
    if rules == [] then (false, "")
    else if GlobMatch(rules[0], reference) then (true, rules[0])
    else FirstMatch(rules[1..], reference)
  }

  function Verdict(reference: string, forceImmutable: bool, rules: Option<seq<string>>): (bool, string) {
    if reference == "" || ':' in reference then (false, "")
    else if forceImmutable then (true, "repo-immutable")
    else if rules.None? then (false, "")
    else FirstMatch(rules.value, reference)
  }

  /**
   * A tag is protected exactly if the repository is immutable or some rule matches, and the rule named is
   * the first that does.
   */
  lemma {:induction false} FirstMatchMeans(rules: seq<string>, reference: string)
    ensures FirstMatch(rules, reference).0 <==> exists i :: 0 <= i < |rules| && GlobMatch(rules[i], reference)
    ensures FirstMatch(rules, reference).0 ==>
              exists i :: 0 <= i < |rules| && FirstMatch(rules, reference).1 == rules[i] &&
                  GlobMatch(rules[i], reference) &&
                (forall j :: 0 <= j < i ==> !GlobMatch(rules[j], reference))
    decreases |rules|
  {
    if rules != [] && !GlobMatch(rules[0], reference) {
      var rest := rules[1..];
      FirstMatchMeans(rest, reference);
      if FirstMatch(rest, reference).0 {
        var i :| 0 <= i < |rest| && FirstMatch(rest, reference).1 == rest[i] && GlobMatch(rest[i], reference) &&
          (forall j :: 0 <= j < i ==> !GlobMatch(rest[j], reference));
        assert rules[i + 1] == rest[i];
        assert forall j :: 0 < j < i + 1 ==> rules[j] == rest[j - 1];
      }
      assert forall i :: 0 < i < |rules| ==> rules[i] == rest[i - 1];
    }
  }
}
