/**
 * Shell-style name patterns and the skip test of `replace`
 * (instantiate.py:88-92).
 *
 * `Match` covers the part of `fnmatch` this model keeps: `*` matches any run
 * of characters (including none), `?` matches exactly one character, and every
 * other character matches itself. Matching is case-sensitive, as on POSIX.
 */
module Glob {
  import opened Results

  /** `fnmatch.fnmatch(name, pattern)` for patterns made of literals, `?` and `*`. */
  function Match(name: string, pattern: string): bool
    decreases |pattern|, |name|
  {
    if pattern == [] then name == []
    else if pattern[0] == '*' then
      Match(name, pattern[1..]) || (name != [] && Match(name[1..], pattern))
    else
      name != [] && (pattern[0] == '?' || pattern[0] == name[0]) && Match(name[1..], pattern[1..])
  }

  /** A pattern without wildcards. */
  predicate Literal(pattern: string) {
    forall i :: 0 <= i < |pattern| ==> pattern[i] != '*' && pattern[i] != '?'
  }

  /** A pattern without wildcards matches exactly the name it spells. */
  lemma {:induction false} LiteralMatchesItself(name: string, pattern: string)
    requires Literal(pattern)
    ensures Match(name, pattern) <==> name == pattern
  {
    if pattern != [] && name != [] {
      LiteralMatchesItself(name[1..], pattern[1..]);
      if name[1..] == pattern[1..] && name[0] == pattern[0] {
        assert name == [name[0]] + name[1..];
        assert pattern == [pattern[0]] + pattern[1..];
      }
    }
  }

  /** `*` alone matches every name. */
  lemma {:induction false} StarMatchesAll(name: string)
    ensures Match(name, "*")
  {
    if name != [] {
      StarMatchesAll(name[1..]);
    }
  }

  /** `"?" + rest`, with a literal rest, matches exactly the names of one character more that end in `rest`. */
  lemma {:induction false} QuestionMatchesOne(name: string, rest: string)
    requires Literal(rest)
    ensures Match(name, "?" + rest) <==> |name| == |rest| + 1 && name[1..] == rest
  {
    assert ("?" + rest)[1..] == rest;
    if name != [] {
      LiteralMatchesItself(name[1..], rest);
    }
  }

  /** `"*" + suffix`, with a literal suffix, matches exactly the names ending in that suffix (`*.pdf`). */
  lemma {:induction false} StarSuffix(name: string, suffix: string)
    requires Literal(suffix)
    ensures Match(name, "*" + suffix) <==> |name| >= |suffix| && name[|name| - |suffix|..] == suffix
  {
    var pattern := "*" + suffix;
    assert pattern[1..] == suffix;
    LiteralMatchesItself(name, suffix);
    if name != [] {
      StarSuffix(name[1..], suffix);
      if |name| > |suffix| {
        assert name[1..][|name| - 1 - |suffix|..] == name[|name| - |suffix|..];
      }
    }
  }

  /**
   * The patterns in force: `no_replace`, with `None` standing for the empty list.
   */
  function Patterns(noReplace: Option<seq<string>>): (ps: seq<string>)
    ensures noReplace.None? ==> ps == []
    ensures noReplace.Some? ==> ps == noReplace.value
  {
    if noReplace.None? then [] else noReplace.value
  }

  /** `_should_be_skipped`: the base name matches at least one pattern. */
  function ShouldBeSkipped(name: string, patterns: seq<string>): (b: bool)
    ensures b <==> exists i :: 0 <= i < |patterns| && Match(name, patterns[i])
  {
    if patterns == [] then false
    else
      assert forall i :: 1 <= i < |patterns| ==> patterns[i] == patterns[1..][i - 1];
      Match(name, patterns[0]) || ShouldBeSkipped(name, patterns[1..])
  }

  /** `_should_be_skipped`, the closure `replace` builds over `no_replace`. */
  function Skipper(noReplace: Option<seq<string>>): (skip: string -> bool)
    ensures forall name :: skip(name) <==> ShouldBeSkipped(name, Patterns(noReplace))
  {
    name => ShouldBeSkipped(name, Patterns(noReplace))
  }

  /** Without patterns nothing is skipped. */
  lemma {:induction false} NothingSkippedWithoutPatterns(noReplace: Option<seq<string>>)
    requires noReplace.None? || noReplace.value == []
    ensures forall name :: !Skipper(noReplace)(name)
  {
  }

  /** Skipping `*.pdf` drops `a.pdf` and keeps `c.tex`. */
  lemma {:induction false} PdfExample()
    ensures ShouldBeSkipped("a.pdf", ["*.pdf"])
    ensures !ShouldBeSkipped("c.tex", ["*.pdf"])
  {
    assert "*" + ".pdf" == "*.pdf" && ["*.pdf"][0] == "*.pdf";
    StarSuffix("a.pdf", ".pdf");
    StarSuffix("c.tex", ".pdf");
    assert "c.tex"[1..][1] != ".pdf"[1];
  }
}
