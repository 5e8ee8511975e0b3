/** The recursive matcher, with the runs in which a negated class steps past the end of the string. */
module GlobMatch {
  import opened GlobLanguage
  import opened AclMatch

  /** An answer, or a run that goes on behind the end of the string, on what happens to be there. */
  datatype Verdict = Answer(yes: bool) | Past

  /** What the matcher makes of the rest of a pattern when it has stepped past the end, its count of characters left
      having wrapped around: it goes on without looking at a character only as long as the pattern asks for none. */
  function Beyond(p: string): Verdict
    decreases |p|
  {
    if p == [] then Answer(false)
    else if p[0] == '*' then if AllStars(p) then Answer(true) else Past
    else if p[0] == '?' then Beyond(p[1..])
    else if p[0] == '[' then
      var s := Inside(p[1..]);
      if s == [] then Answer(false)
      else if s[0] != ']' then Past
      else if Negated(p[1..]) then Beyond(s[1..])
      else Answer(false)
    else Past
  }

  /** Some way of matching the string with a part of the pattern leads to a negated class at the end of the string, and
      the rest of the pattern then gives verdict v. */
  ghost predicate Falls(p: string, k: string, v: Verdict)
    decreases |p|
  {
    if p == [] then false
    else if p[0] == '*' then exists i :: 0 <= i <= |k| && Falls(p[1..], k[i..], v)
    else if p[0] == '?' then k != [] && Falls(p[1..], k[1..], v)
    else if p[0] == '[' then
      var c := Parse(Inside(p[1..]));
      && c.Class?
      && if k == [] then Negated(p[1..]) && Beyond(c.rest) == v
         else Covers(c.items, k[0]) != Negated(p[1..]) && Falls(c.rest, k[1..], v)
    else if p[0] == '\\' && |p| >= 2 then k != [] && p[1] == k[0] && Falls(p[2..], k[1..], v)
    else k != [] && p[0] == k[0] && Falls(p[1..], k[1..], v)
  }

  /** The end is stepped over, and not to fail. */
  ghost predicate Errs(p: string, k: string) { Falls(p, k, Answer(true)) || Falls(p, k, Past) }

  /** A pattern without a negated class never leads there. */
  lemma {:induction false} FallsBehindNegation(p: string, k: string, v: Verdict)
    requires Falls(p, k, v)
    ensures '[' in p && '^' in p
    decreases |p|
  {
    if p[0] == '*' {
      var i :| 0 <= i <= |k| && Falls(p[1..], k[i..], v);
      FallsBehindNegation(p[1..], k[i..], v);
    } else if p[0] == '?' {
      FallsBehindNegation(p[1..], k[1..], v);
    } else if p[0] == '[' {
      if k == [] {
        assert p[1..][0] == p[1] == '^';
      } else {
        var c := Parse(Inside(p[1..]));
        FallsBehindNegation(c.rest, k[1..], v);
        RestIn(Inside(p[1..]), '^');
      }
    } else if p[0] == '\\' && |p| >= 2 {
      FallsBehindNegation(p[2..], k[1..], v);
    } else {
      FallsBehindNegation(p[1..], k[1..], v);
    }
  }

  lemma {:induction false} RestIn(s: string, c: char)
    requires Parse(s).Class? && c in Parse(s).rest
    ensures c in s
    decreases |s|
  {
    if s[0] == '\\' && |s| >= 2 {
      RestIn(s[2..], c);
    } else if s[0] != ']' {
      if |s| >= 3 && s[1] == '-' { RestIn(s[3..], c); } else { RestIn(s[1..], c); }
    }
  }

  /** The order of the attempts is right: once the end is stepped over in one, no shorter suffix matches, unless the
      string of this attempt does. */
  lemma {:induction false} FallsLast(p: string, k: string, i: nat, v: Verdict)
    requires 0 < i <= |k| && Falls(p, k, v) && Lang(p, k[i..])
    ensures Lang(p, k)
    decreases |p|
  {
    if p[0] == '*' {
      var j :| 0 <= j <= |k[i..]| && Lang(p[1..], k[i..][j..]);
      assert k[i..][j..] == k[i + j..];
    } else {
      assert k[i..][1..] == k[1..][i..];
      if p[0] == '[' {
        FallsLast(Parse(Inside(p[1..])).rest, k[1..], i, v);
      } else if p[0] == '\\' && |p| >= 2 {
        FallsLast(p[2..], k[1..], i, v);
      } else {
        FallsLast(p[1..], k[1..], i, v);
      }
    }
  }

  /** Several stars mean one: the rest of the pattern is tried at every suffix. */
  lemma {:induction false} StarsCollapse(p: string, k: string, n: nat)
    requires 0 < n <= |p| && AllStars(p[..n])
    ensures Lang(p, k) <==> exists i :: 0 <= i <= |k| && Lang(p[n..], k[i..])
    ensures forall v :: Falls(p, k, v) <==> exists i :: 0 <= i <= |k| && Falls(p[n..], k[i..], v)
    decreases |p|
  {
    assert p[0] == p[..n][0] == '*';
    if n > 1 {
      forall i | 0 <= i <= |k|
        ensures Lang(p[1..], k[i..]) <==> exists j :: i <= j <= |k| && Lang(p[n..], k[j..])
        ensures forall v :: Falls(p[1..], k[i..], v) <==> exists j :: i <= j <= |k| && Falls(p[n..], k[j..], v)
      {
        assert p[1..][..n - 1] == p[..n][1..];
        StarsCollapse(p[1..], k[i..], n - 1);
        assert p[1..][n - 1..] == p[n..];
        forall j | 0 <= j <= |k| - i ensures k[i..][j..] == k[i + j..] { }
        if j :| i <= j <= |k| && Lang(p[n..], k[j..]) { assert k[i..][j - i..] == k[j..]; }
        forall j | i <= j <= |k| ensures k[i..][j - i..] == k[j..] { }
      }
    }
  }

  // ---------------------------------------------------------------- the program

  lemma PrependTwice(a: seq<Item>, i: Item, c: Class)
    ensures Prepend(a, Prepend([i], c)) == Prepend(a + [i], c)
  {
    if c.Class? { assert a + ([i] + c.items) == (a + [i]) + c.items; }
  }

  lemma CoversMore(items: seq<Item>, i: Item, c: char)
    ensures Covers(items + [i], c) <==> Covers(items, c) || i.lo <= c <= i.hi
  {
    assert (items + [i])[|items|] == i;
    forall j | 0 <= j < |items| ensures (items + [i])[j] == items[j] { }
  }

  /** The class loop: what closes the class, what is behind it, and whether the character, if there is one, is in it. */
  method ReadClass(cls: string, str: string) returns (closed: bool, hit: bool, rest: string)
    ensures closed <==> Parse(cls).Class?
    ensures closed ==> rest == Parse(cls).rest && (hit <==> str != [] && Covers(Parse(cls).items, str[0]))
  {
    hide Covers;
    closed, hit, rest := false, false, cls;
    ghost var items: seq<Item> := [];
    assert !Covers(items, ' ') && (str != [] ==> !Covers(items, str[0])) by { NothingCovered(); }
    while rest != []
      invariant Parse(cls) == Prepend(items, Parse(rest))
      invariant hit <==> str != [] && Covers(items, str[0])
      decreases |rest|
    {
      ghost var item := Item(rest[0], rest[0]);
      if rest[0] == '\\' && |rest| >= 2 {
        item := Item(rest[1], rest[1]);
        if |str| > 0 && rest[1] == str[0] { hit := true; }
        PrependTwice(items, item, Parse(rest[2..]));
        rest := rest[2..];
      } else if rest[0] == ']' {
        assert items + [] == items;
        return true, hit, rest[1..];
      } else if |rest| >= 3 && rest[1] == '-' {
        item := Item(rest[0], rest[2]);
        if |str| > 0 && rest[0] <= str[0] <= rest[2] { hit := true; }
        PrependTwice(items, item, Parse(rest[3..]));
        rest := rest[3..];
      } else {
        if |str| > 0 && rest[0] == str[0] { hit := true; }
        PrependTwice(items, item, Parse(rest[1..]));
        rest := rest[1..];
      }
      if str != [] { CoversMore(items, item, str[0]); }
      items := items + [item];
    }
  }

  lemma NothingCovered()
    ensures forall c :: !Covers([], c)
  {
  }

  /** The loop once it has stepped past the end. */
  method RunOn(pat: string) returns (r: Verdict)
    ensures r == Beyond(pat)
  {
    var p := pat;
    while |p| > 0
      invariant Beyond(p) == Beyond(pat)
      decreases |p|
    {
      if p[0] == '*' {
        var n := CountStars(p);
        assert AllStars(p) <==> n == |p|;
        return if n == |p| then Answer(true) else Past;
      } else if p[0] == '?' {
        p := p[1..];
      } else if p[0] == '[' {
        var s := Inside(p[1..]);
        if s == [] { return Answer(false); }
        if s[0] != ']' { return Past; }
        if !Negated(p[1..]) { return Answer(false); }
        p := s[1..];
      } else {
        return Past;
      }
    }
    return Answer(false);
  }

  method CountStars(pat: string) returns (n: nat)
    ensures n <= |pat| && AllStars(pat[..n]) && (n < |pat| ==> pat[n] != '*')
  {
    n := 0;
    while n < |pat| && pat[n] == '*'
      invariant 0 <= n <= |pat| && AllStars(pat[..n])
    {
      assert pat[..n + 1] == pat[..n] + ['*'];
      n := n + 1;
    }
  }

  /** What a verdict must be: right on a match, and otherwise what stepping past the end gives, if that may happen. */
  ghost predicate Decides(r: Verdict, p: string, k: string) {
    if Lang(p, k) then r == Answer(true)
    else if Errs(p, k) then r != Answer(false) && Falls(p, k, r)
    else r == Answer(false)
  }

  /** ddup_glob_match: right exactly when the string matches, or no negated class is reached at its end with a rest of
      the pattern that does not fail there. */
  method Glob(pat: string, str: string) returns (r: Verdict)
    ensures Decides(r, pat, str)
    ensures r == Answer(Lang(pat, str)) <==> Lang(pat, str) || !Errs(pat, str)
    decreases |pat|
  {
    hide Covers, Parse, Beyond;
    var p, s := pat, str;
    while |p| > 0
      invariant |p| <= |pat| && Lang(p, s) == Lang(pat, str) && forall v :: Falls(p, s, v) == Falls(pat, str, v)
      decreases |p|
    {
      if p[0] == '*' {
        r := TrySuffixes(p, s);
        return;
      } else if p[0] == '?' {
        if |s| == 0 { return Answer(false); }
        p, s := p[1..], s[1..];
      } else if p[0] == '[' {
        var closed, hit, rest := ReadClass(Inside(p[1..]), s);
        if !closed { return Answer(false); }
        if hit == Negated(p[1..]) { return Answer(false); }
        if |s| == 0 {
          r := RunOn(rest);
          return;
        }
        p, s := rest, s[1..];
      } else {
        var q := if p[0] == '\\' && |p| >= 2 then p[1..] else p;
        if |s| == 0 || q[0] != s[0] { return Answer(false); }
        p, s := q[1..], s[1..];
      }
    }
    return Answer(|s| == 0);
  }

  /** The attempts at the suffixes before i have failed, and rightly so. */
  ghost predicate Tried(p: string, k: string, i: nat) {
    i <= |k| && forall j :: 0 <= j < i ==> !Lang(p, k[j..]) && !Errs(p, k[j..])
  }

  lemma TriedMore(p: string, k: string, i: nat)
    requires Tried(p, k, i) && i < |k| && Decides(Answer(false), p, k[i..])
    ensures Tried(p, k, i + 1)
  {
    hide Lang, Falls;
  }

  /** The first attempt that does not fail decides, and so does the last one. */
  lemma SuffixDecides(pat: string, k: string, n: nat, i: nat, r: Verdict)
    requires 0 < n <= |pat| && AllStars(pat[..n]) && Tried(pat[n..], k, i)
    requires Decides(r, pat[n..], k[i..]) && (r != Answer(false) || i == |k|)
    ensures Decides(r, pat, k)
  {
    var p := pat[n..];
    StarsCollapse(pat, k, n);
    NoLater(p, k, i);
    hide Lang, Falls, AllStars;
    if Lang(p, k[i..]) {
    } else if Errs(p, k[i..]) {
      forall j | 0 <= j <= |k| ensures !Lang(p, k[j..]) { }
    } else {
      forall j | 0 <= j <= |k| ensures !Lang(p, k[j..]) && !Errs(p, k[j..]) { }
    }
  }

  method TrySuffixes(pat: string, str: string) returns (r: Verdict)
    requires |pat| > 0 && pat[0] == '*'
    ensures Decides(r, pat, str)
    decreases |pat|, 0
  {
    var n := CountStars(pat);
    var p := pat[n..];
    if |p| == 0 {
      StarsCollapse(pat, str, n);
      assert Lang(p, str[|str|..]);
      return Answer(true);
    }
    hide Lang, Falls, Decides, AllStars, Tried;
    var i := 0;
    assert Tried(p, str, 0) by { NothingTried(p, str); }
    while true
      invariant 0 <= i <= |str| && Tried(p, str, i)
      decreases |str| - i
    {
      r := Glob(p, str[i..]);
      if r != Answer(false) || i == |str| {
        SuffixDecides(pat, str, n, i, r);
        return;
      }
      TriedMore(p, str, i);
      i := i + 1;
    }
  }

  lemma NothingTried(p: string, k: string)
    ensures Tried(p, k, 0)
  {
  }

  lemma NoLater(p: string, k: string, i: nat)
    requires i <= |k|
    ensures Errs(p, k[i..]) && !Lang(p, k[i..]) ==> forall j :: i < j <= |k| ==> !Lang(p, k[j..])
  {
    hide Falls, Lang;
    if Errs(p, k[i..]) && !Lang(p, k[i..]) {
      var v := if Falls(p, k[i..], Past) then Past else Answer(true);
      forall j | i < j <= |k| ensures !Lang(p, k[j..]) {
        assert k[i..][j - i..] == k[j..];
        if Lang(p, k[j..]) { FallsLast(p, k[i..], j - i, v); }
      }
    }
  }

  /** Witness: the empty string is found to match a pattern that asks for a character other than a. */
  method EmptyMatches() returns (r: Verdict)
    ensures r == Answer(true) && !Lang("[^a]*", "")
  {
    r := Glob("[^a]*", "");
    var none: string := [];
    assert "[^a]*"[1..] == "^a]*" && "^a]*"[1..] == "a]*" && "a]*"[1..] == "]*" && "]*"[1..] == "*";
    assert Parse("]*") == Class([], "*");
    assert Parse("a]*") == Prepend([Item('a', 'a')], Parse("]*"));
    assert Beyond("*") == Answer(true);
    assert Falls("[^a]*", none, Answer(true)) && !Falls("[^a]*", none, Past);
  }

  /** On patterns without classes and escapes, and keys without stars, the two matchers agree. */
  method BothAgree(pat: string, key: string) returns (a: bool, b: bool)
    requires '[' !in pat && '\\' !in pat
    ensures a ==> b
    ensures '*' !in key ==> a == b
    ensures b == Matches(pat, key)
  {
    a := MatchPattern(pat, key);
    var r := Glob(pat, key);
    b := r == Answer(true);
    if v: Verdict :| Falls(pat, key, v) { FallsBehindNegation(pat, key, v); }
    WithoutEscapes(pat, key);
    if a { Sound(pat, key); }
    if '*' !in key { Complete(pat, key); }
  }
}
