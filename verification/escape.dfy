/**
 * `escapeRegex`: makes a string safe to embed literally in a regular
 * expression by putting a backslash before every metacharacter.
 */
module Escape {
  import opened Sequences

  /**
   * The characters escaped: . * + ? ^ $ { } ( ) | [ ] \, the syntax
   * characters of a JavaScript regular expression outside a character class.
   * `-` and `/` are left as they are.
   */
  predicate IsMeta(c: char) {
    || c == '.' || c == '*' || c == '+' || c == '?' || c == '^' || c == '$' || c == '|'
    || c == '{' || c == '}' || c == '(' || c == ')' || c == '[' || c == ']' || c == '\\'
  }

  function EscapeChar(c: char): string {
    if IsMeta(c) then ['\\', c] else [c]
  }

  /**
   * A pattern that matches only one literal string: every metacharacter in
   * it is consumed by a preceding backslash.
   */
  predicate IsLiteralPattern(p: string)
    decreases |p|
  {
    if |p| == 0 then true
    else if p[0] == '\\' then |p| >= 2 && IsMeta(p[1]) && IsLiteralPattern(p[2..])
    else !IsMeta(p[0]) && IsLiteralPattern(p[1..])
  }

  /** The string a literal pattern stands for: each backslash is dropped and the next character kept. */
  function Unescape(p: string): string
    decreases |p|
  {
    if |p| == 0 then ""
    else if p[0] == '\\' && |p| >= 2 then [p[1]] + Unescape(p[2..])
    else [p[0]] + Unescape(p[1..])
  }

  function CountMeta(s: string): nat
    decreases |s|
  {
    if |s| == 0 then 0 else (if IsMeta(s[0]) then 1 else 0) + CountMeta(s[1..])
  }

  function EscapeRegex(s: string): (p: string)
    ensures IsLiteralPattern(p)
    ensures Unescape(p) == s
    ensures |p| == |s| + CountMeta(s)
    decreases |s|
  {
    if |s| == 0 then ""
    else
      var rest := EscapeRegex(s[1..]);
      var p := EscapeChar(s[0]) + rest;
      if IsMeta(s[0]) then
        assert p[2..] == rest;
        assert s == [s[0]] + s[1..];
        p
      else
        assert p[1..] == rest;
        assert s == [s[0]] + s[1..];
        p
  }

  /** Strings without metacharacters pass through unchanged. */
  lemma {:induction false} EscapeIdentity(s: string)
    requires forall i :: 0 <= i < |s| ==> !IsMeta(s[i])
    ensures EscapeRegex(s) == s
    decreases |s|
  {
    if |s| > 0 {
      EscapeIdentity(s[1..]);
      assert s == [s[0]] + s[1..];
    }
  }

  /** Escaping works character by character: it distributes over concatenation. */
  lemma {:induction false} EscapeConcat(a: string, b: string)
    ensures EscapeRegex(a + b) == EscapeRegex(a) + EscapeRegex(b)
    decreases |a|
  {
    if |a| == 0 {
      assert a + b == b;
    } else {
      var s := a + b;
      assert s[0] == a[0];
      assert s[1..] == a[1..] + b;
      assert EscapeRegex(s) == EscapeChar(a[0]) + EscapeRegex(a[1..] + b);
      assert EscapeRegex(a) == EscapeChar(a[0]) + EscapeRegex(a[1..]);
      EscapeConcat(a[1..], b);
      ConcatAssoc(EscapeChar(a[0]), EscapeRegex(a[1..]), EscapeRegex(b));
    }
  }

  /** Escaping is injective: different strings never produce the same pattern. */
  lemma EscapeInjective(a: string, b: string)
    requires EscapeRegex(a) == EscapeRegex(b)
    ensures a == b
  {
  }
}
