/** The iterative matcher of access rules: one remembered star, literals tried before stars. */
module AclMatch {
  import opened GlobLanguage

  /** The matcher's loop: positions in pattern and key, and the last star with the key position it was met at. */
  predicate Loop(pat: string, key: string, pi: nat, ki: nat, star: int, mark: nat)
    requires pi <= |pat| && mark <= ki <= |key| && -1 <= star < pi
    decreases |pat| - star, |key| - mark, |key| - ki
  {
    if ki == |key| then AllStars(pat[pi..])
    else if pi < |pat| && (pat[pi] == '?' || pat[pi] == key[ki]) then Loop(pat, key, pi + 1, ki + 1, star, mark)
    else if pi < |pat| && pat[pi] == '*' then Loop(pat, key, pi + 1, ki, pi, ki)
    else if star != -1 then Loop(pat, key, star + 1, mark + 1, star, mark + 1)
    else false
  }

  predicate Acl(pat: string, key: string) { Loop(pat, key, 0, 0, -1, 0) }

  /** acl_match_pattern */
  method MatchPattern(pat: string, key: string) returns (r: bool)
    ensures r == Acl(pat, key) && (r ==> Matches(pat, key))
    ensures '*' !in key ==> (r <==> Matches(pat, key))
  {
    if Acl(pat, key) { Sound(pat, key); }
    if '*' !in key { Complete(pat, key); }
    var pi, ki, star, mark := 0, 0, -1, 0;
    while ki < |key|
      invariant 0 <= pi <= |pat| && 0 <= mark <= ki <= |key| && -1 <= star < pi
      invariant Acl(pat, key) == Loop(pat, key, pi, ki, star, mark)
      decreases |pat| - star, |key| - mark, |key| - ki
    {
      if pi < |pat| && (pat[pi] == '?' || pat[pi] == key[ki]) {
        pi, ki := pi + 1, ki + 1;
      } else if pi < |pat| && pat[pi] == '*' {
        star, mark := pi, ki;
        pi := pi + 1;
      } else if star != -1 {
        mark := mark + 1;
        pi, ki := star + 1, mark;
      } else {
        return false;
      }
    }
    ghost var rest := pi;
    while pi < |pat| && pat[pi] == '*'
      invariant rest <= pi <= |pat| && forall i :: rest <= i < pi ==> pat[i] == '*'
    {
      pi := pi + 1;
    }
    assert pi < |pat| ==> !AllStars(pat[rest..]) by { if pi < |pat| { assert pat[rest..][pi - rest] == pat[pi]; } }
    return pi == |pat|;
  }

  // ---------------------------------------------------------------- soundness

  /** A step of the loop over one character is a step of the language, even when the character is a star. */
  lemma StepSound(pat: string, key: string, pi: nat, ki: nat)
    requires pi < |pat| && ki < |key| && (pat[pi] == '?' || pat[pi] == key[ki]) && Matches(pat[pi + 1..], key[ki + 1..])
    ensures Matches(pat[pi..], key[ki..])
  {
    var p, k := pat[pi..], key[ki..];
    assert p[1..] == pat[pi + 1..] && k[1..] == key[ki + 1..];
    if p[0] == '*' { StarTakes(p, k, 1); }
  }

  /** What the remembered star can still make of the key. */
  ghost predicate Again(pat: string, key: string, star: int, from: nat) {
    star >= 0 && exists j :: from <= j <= |key| && star < |pat| && Matches(pat[star + 1..], key[j..])
  }

  lemma {:induction false} LoopSound(pat: string, key: string, pi: nat, ki: nat, star: int, mark: nat)
    requires pi <= |pat| && mark <= ki <= |key| && -1 <= star < pi && Loop(pat, key, pi, ki, star, mark)
    ensures Matches(pat[pi..], key[ki..]) || Again(pat, key, star, mark)
    decreases |pat| - star, |key| - mark, |key| - ki
  {
    if ki == |key| {
      assert key[ki..] == [];
      EmptyKey(pat[pi..]);
    } else if pi < |pat| && (pat[pi] == '?' || pat[pi] == key[ki]) {
      LoopSound(pat, key, pi + 1, ki + 1, star, mark);
      if !Again(pat, key, star, mark) { StepSound(pat, key, pi, ki); }
    } else if pi < |pat| && pat[pi] == '*' {
      LoopSound(pat, key, pi + 1, ki, pi, ki);
      StarFrom(pat, key, pi, ki);
    } else if star != -1 {
      LoopSound(pat, key, star + 1, mark + 1, star, mark + 1);
      assert Again(pat, key, star, mark);
    }
  }

  lemma StarFrom(pat: string, key: string, pi: nat, ki: nat)
    requires pi < |pat| && ki <= |key| && pat[pi] == '*'
    requires Matches(pat[pi + 1..], key[ki..]) || Again(pat, key, pi, ki)
    ensures Matches(pat[pi..], key[ki..])
  {
    var j := if Matches(pat[pi + 1..], key[ki..]) then ki
                 else var j :| ki <= j <= |key| && Matches(pat[pi + 1..], key[j..]); j;
    assert pat[pi..][1..] == pat[pi + 1..] && key[ki..][j - ki..] == key[j..];
    StarTakes(pat[pi..], key[ki..], j - ki);
  }

  /** Every match that the matcher reports is one. */
  lemma Sound(pat: string, key: string)
    requires Acl(pat, key)
    ensures Matches(pat, key)
  {
    LoopSound(pat, key, 0, 0, -1, 0);
    assert pat[0..] == pat && key[0..] == key;
  }

  // ---------------------------------------------------------------- completeness

  /** Since the last star the pattern has no star and has kept pace with the key. */
  ghost predicate Pace(pat: string, pi: nat, ki: nat, star: int, mark: nat)
    requires pi <= |pat| && -1 <= star < pi
  {
    (star >= 0 ==> ki - mark == pi - star - 1) && forall i :: star < i < pi ==> pat[i] != '*'
  }

  lemma {:induction false} LoopComplete(pat: string, key: string, pi: nat, ki: nat, star: int, mark: nat)
    requires '*' !in key && pi <= |pat| && mark <= ki <= |key| && -1 <= star < pi && Pace(pat, pi, ki, star, mark)
    requires Matches(pat[pi..], key[ki..]) || Again(pat, key, star, mark + 1)
    ensures Loop(pat, key, pi, ki, star, mark)
    decreases |pat| - star, |key| - mark, |key| - ki
  {
    if ki == |key| {
      AtEnd(pat, key, pi, star, mark);
    } else if pi < |pat| && (pat[pi] == '?' || pat[pi] == key[ki]) {
      assert key[ki] in key;
      if Matches(pat[pi..], key[ki..]) { assert pat[pi..][1..] == pat[pi + 1..] && key[ki..][1..] == key[ki + 1..]; }
      LoopComplete(pat, key, pi + 1, ki + 1, star, mark);
    } else if pi < |pat| && pat[pi] == '*' {
      NewStar(pat, key, pi, ki, star, mark);
      LoopComplete(pat, key, pi + 1, ki, pi, ki);
    } else {
      NextMark(pat, key, pi, ki, star, mark);
      LoopComplete(pat, key, star + 1, mark + 1, star, mark + 1);
    }
  }

  /** Where neither a literal nor a star goes on, the remembered star can make a match one further on, or later. */
  lemma NextMark(pat: string, key: string, pi: nat, ki: nat, star: int, mark: nat)
    requires pi <= |pat| && mark <= ki < |key| && -1 <= star < pi && Pace(pat, pi, ki, star, mark)
    requires pi < |pat| ==> pat[pi] != '?' && pat[pi] != key[ki] && pat[pi] != '*'
    requires Matches(pat[pi..], key[ki..]) || Again(pat, key, star, mark + 1)
    ensures star >= 0 && mark + 1 <= |key| && Pace(pat, star + 1, mark + 1, star, mark + 1)
    ensures Matches(pat[star + 1..], key[mark + 1..]) || Again(pat, key, star, mark + 2)
  {
    assert !Matches(pat[pi..], key[ki..]) by { NoStep(pat[pi..], key[ki..]); }
    hide Matches;
    var j :| mark + 1 <= j <= |key| && Matches(pat[star + 1..], key[j..]);
  }

  lemma NoStep(p: string, k: string)
    requires k != [] && (p != [] ==> p[0] != '?' && p[0] != k[0] && p[0] != '*')
    ensures !Matches(p, k)
  {
  }

  /** At the end of the key a later start of the remembered star has too little left. */
  lemma AtEnd(pat: string, key: string, pi: nat, star: int, mark: nat)
    requires pi <= |pat| && mark <= |key| && -1 <= star < pi && Pace(pat, pi, |key|, star, mark)
    requires Matches(pat[pi..], key[|key|..]) || Again(pat, key, star, mark + 1)
    ensures AllStars(pat[pi..])
  {
    if Matches(pat[pi..], key[|key|..]) {
      assert key[|key|..] == [];
      EmptyKey(pat[pi..]);
    } else {
      var j :| mark + 1 <= j <= |key| && Matches(pat[star + 1..], key[j..]);
      AfterStretch(pat[star + 1..], key[j..], pi - star - 1);
    }
  }

  /** A new star can do all that the old one could. */
  lemma NewStar(pat: string, key: string, pi: nat, ki: nat, star: int, mark: nat)
    requires pi < |pat| && pat[pi] == '*' && mark <= ki <= |key| && -1 <= star < pi && Pace(pat, pi, ki, star, mark)
    requires Matches(pat[pi..], key[ki..]) || Again(pat, key, star, mark + 1)
    ensures Matches(pat[pi + 1..], key[ki..]) || Again(pat, key, pi, ki + 1)
  {
    var at := ki;
    if !Matches(pat[pi..], key[ki..]) {
      var j :| mark + 1 <= j <= |key| && Matches(pat[star + 1..], key[j..]);
      var n := pi - star - 1;
      AfterStretch(pat[star + 1..], key[j..], n);
      assert pat[star + 1..][n..] == pat[pi..] && key[j..][n..] == key[j + n..];
      at := j + n;
    }
    assert at >= ki && Matches(pat[pi..], key[at..]);
    var i :| 0 <= i <= |key[at..]| && Matches(pat[pi..][1..], key[at..][i..]);
    assert pat[pi..][1..] == pat[pi + 1..] && key[at..][i..] == key[at + i..];
  }

  /** On keys without a star the matcher finds every match. */
  lemma Complete(pat: string, key: string)
    requires '*' !in key
    ensures Acl(pat, key) <==> Matches(pat, key)
  {
    if Acl(pat, key) {
      Sound(pat, key);
    } else if Matches(pat, key) {
      assert pat[0..] == pat && key[0..] == key;
      LoopComplete(pat, key, 0, 0, -1, 0);
    }
  }

  // ---------------------------------------------------------------- keys with a star

  /** While pattern and key agree the loop moves along both. */
  lemma {:induction false} LoopAlong(pat: string, key: string, i: nat, n: nat)
    requires i <= n <= |pat| && n <= |key| && forall j :: i <= j < n ==> pat[j] == key[j]
    ensures Loop(pat, key, i, i, -1, 0) == Loop(pat, key, n, n, -1, 0)
    decreases n - i
  {
    if i < n { LoopAlong(pat, key, i + 1, n); }
  }

  lemma {:induction false} MatchesAlong(pat: string, key: string, n: nat)
    requires n <= |pat| && n <= |key| && (forall j :: 0 <= j < n ==> pat[j] == key[j] != '*')
    requires Matches(pat[n..], key[n..])
    ensures Matches(pat, key)
  {
    if n == 0 {
      assert pat[0..] == pat && key[0..] == key;
    } else {
      assert pat[1..][n - 1..] == pat[n..] && key[1..][n - 1..] == key[n..];
      MatchesAlong(pat[1..], key[1..], n - 1);
    }
  }

  lemma {:induction false} FirstStar(key: string) returns (n: nat)
    requires '*' in key
    ensures n < |key| && key[n] == '*' && forall j :: 0 <= j < n ==> key[j] != '*'
  {
    if key[0] == '*' {
      n := 0;
    } else {
      n := FirstStar(key[1..]);
      n := n + 1;
    }
  }

  /** A star inside the key is taken for the star of the pattern, which then ends too early. */
  lemma MissedInside(key: string, n: nat)
    requires n + 1 < |key| && key[n] == '*' && forall j :: 0 <= j < n ==> key[j] != '*'
    ensures Matches(key[..n] + "*", key) && !Acl(key[..n] + "*", key)
  {
    var pat := key[..n] + "*";
    assert pat[n..] == "*";
    assert !Acl(pat, key) by {
      hide Matches;
      LoopAlong(pat, key, 0, n + 1);
    }
    assert Matches("*", key[n..]) by { StarTakes("*", key[n..], |key| - n); }
    hide Loop;
    MatchesAlong(pat, key, n);
  }

  /** A star at the end of the key is taken for the star of the pattern, and nothing is left for the rest. */
  lemma MissedAtEnd(key: string, n: nat)
    requires n + 1 == |key| && key[n] == '*' && forall j :: 0 <= j < n ==> key[j] != '*'
    ensures Matches(key[..n] + "*?", key) && !Acl(key[..n] + "*?", key)
  {
    var pat := key[..n] + "*?";
    assert pat[n..] == "*?" && pat[n + 1..][0] == '?';
    assert !Acl(pat, key) by {
      hide Matches;
      LoopAlong(pat, key, 0, n + 1);
    }
    assert Matches("*?", key[n..]) by {
      var end: string := [];
      assert key[n..] == "*" && "*?"[1..] == "?" && "*"[0..] == "*" && "?"[1..] == end && "*"[1..] == end;
      assert Matches("?", "*");
      StarTakes("*?", key[n..], 0);
    }
    hide Loop;
    MatchesAlong(pat, key, n);
  }

  /** For a key with a star there is a pattern that matches it and is not found to match. */
  lemma Missed(key: string) returns (pat: string)
    requires '*' in key
    ensures Matches(pat, key) && !Acl(pat, key)
  {
    hide Matches, Acl;
    var n := FirstStar(key);
    if n + 1 < |key| {
      pat := key[..n] + "*";
      MissedInside(key, n);
    } else {
      pat := key[..n] + "*?";
      MissedAtEnd(key, n);
    }
  }

  /** The matcher is right about a key for every pattern exactly when the key has no star. */
  lemma ExactlyWithoutStars(key: string)
    ensures (forall pat :: Acl(pat, key) <==> Matches(pat, key)) <==> '*' !in key
  {
    if '*' in key {
      var pat := Missed(key);
      assert !(Acl(pat, key) <==> Matches(pat, key));
    } else {
      forall pat ensures Acl(pat, key) <==> Matches(pat, key) { Complete(pat, key); }
    }
  }
}
