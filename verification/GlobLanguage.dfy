/** The language of glob patterns with '*', '?' and literal characters, and with '\' escapes and classes. */
module GlobLanguage {

  /** A pattern of stars, question marks and literals matches a key. */
  ghost predicate Matches(p: string, k: string)
    decreases |p|
  {
    if p == [] then k == []
    else if p[0] == '*' then exists i :: 0 <= i <= |k| && Matches(p[1..], k[i..])
    else k != [] && (p[0] == '?' || p[0] == k[0]) && Matches(p[1..], k[1..])
  }

  // ---------------------------------------------------------------- classes

  /** A range of characters; a single one is a range of its own. */
  datatype Item = Item(lo: char, hi: char)

  /** The items of a class and the pattern behind it, or a class that is not closed. */
  datatype Class = Unclosed | Class(items: seq<Item>, rest: string)

  function Prepend(items: seq<Item>, c: Class): Class {
    if c.Unclosed? then Unclosed else Class(items + c.items, c.rest)
  }

  /** The class that s is the inside of: '\\' makes a character literal, ']' closes, '-' between two makes a range. */
  function Parse(s: string): (c: Class)
    ensures c.Class? ==> |c.rest| < |s|
    decreases |s|
  {
    if s == [] then Unclosed
    else if s[0] == '\\' && |s| >= 2 then Prepend([Item(s[1], s[1])], Parse(s[2..]))
    else if s[0] == ']' then Class([], s[1..])
    else if |s| >= 3 && s[1] == '-' then Prepend([Item(s[0], s[2])], Parse(s[3..]))
    else Prepend([Item(s[0], s[0])], Parse(s[1..]))
  }

  predicate Covers(items: seq<Item>, c: char) {
    exists i :: 0 <= i < |items| && items[i].lo <= c <= items[i].hi
  }

  predicate Negated(s: string) { s != [] && s[0] == '^' }

  function Inside(s: string): string { if Negated(s) then s[1..] else s }

  // ---------------------------------------------------------------- the full language

  /** The same with '\\', which makes the next character literal, a last one standing for itself, and with classes. */
  ghost predicate Lang(p: string, k: string)
    decreases |p|
  {
    if p == [] then k == []
    else if p[0] == '*' then exists i :: 0 <= i <= |k| && Lang(p[1..], k[i..])
    else if p[0] == '?' then k != [] && Lang(p[1..], k[1..])
    else if p[0] == '[' then
      var c := Parse(Inside(p[1..]));
      c.Class? && k != [] && Covers(c.items, k[0]) != Negated(p[1..]) && Lang(c.rest, k[1..])
    else if p[0] == '\\' && |p| >= 2 then k != [] && p[1] == k[0] && Lang(p[2..], k[1..])
    else k != [] && p[0] == k[0] && Lang(p[1..], k[1..])
  }

  lemma {:induction false} WithoutEscapes(p: string, k: string)
    requires '\\' !in p && '[' !in p
    ensures Lang(p, k) == Matches(p, k)
    decreases |p|
  {
    if p != [] {
      assert p[0] in p && '\\' !in p[1..] && '[' !in p[1..];
      if p[0] == '*' {
        forall i | 0 <= i <= |k| ensures Lang(p[1..], k[i..]) == Matches(p[1..], k[i..]) {
          WithoutEscapes(p[1..], k[i..]);
        }
      } else if k != [] {
        WithoutEscapes(p[1..], k[1..]);
      }
    }
  }

  predicate AllStars(p: string) { forall i :: 0 <= i < |p| ==> p[i] == '*' }

  /** Only stars match the empty key. */
  lemma {:induction false} EmptyKey(p: string)
    ensures Matches(p, []) == AllStars(p)
  {
    if p != [] {
      var none: string := [];
      assert none[0..] == none;
      EmptyKey(p[1..]);
      assert AllStars(p) == (p[0] == '*' && AllStars(p[1..]));
    }
  }

  lemma StarTakes(p: string, k: string, i: nat)
    requires p != [] && p[0] == '*' && i <= |k| && Matches(p[1..], k[i..])
    ensures Matches(p, k)
  {
  }

  /** What is behind a stretch without stars matches right after the stretch. */
  lemma {:induction false} AfterStretch(p: string, k: string, n: nat)
    requires n <= |p| && Matches(p, k) && forall i :: 0 <= i < n ==> p[i] != '*'
    ensures n <= |k| && Matches(p[n..], k[n..])
  {
    if n == 0 {
      assert p[0..] == p && k[0..] == k;
    } else {
      AfterStretch(p[1..], k[1..], n - 1);
      assert p[1..][n - 1..] == p[n..] && k[1..][n - 1..] == k[n..];
    }
  }
}
