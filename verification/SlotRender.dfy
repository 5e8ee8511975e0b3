/** Rendering slot ranges as text, and when parsing that text gives the slots back. */
module SlotRender {
  import opened Basics
  import opened Bytes
  import opened SlotBitmap
  import opened SlotText

  // ---------------------------------------------------------------- decimal numbers

  function Dec(n: nat): (r: seq<Byte>)
    ensures |r| > 0 && forall i :: 0 <= i < |r| ==> IsDigit(r[i])
  {
    if n < 10 then [48 + n] else Dec(n / 10) + [48 + n % 10]
  }

  /** Ten to the number of digits of n. */
  function Scale(n: nat): (p: nat)
    ensures p > n && p >= 10
  {
    if n < 10 then 10 else 10 * Scale(n / 10)
  }

  lemma PushFits(v: nat, d: nat)
    requires d < 10 && v * 10 + d <= MAX_U32
    ensures Push(v, 48 + d) == Some(v * 10 + d)
  {
  }

  /** Reading a number after v appends its digits to v. */
  lemma {:induction false} AccDec(v: nat, n: nat)
    requires v * Scale(n) + n <= MAX_U32
    ensures Acc(v, Dec(n)) == Some(v * Scale(n) + n)
    decreases n
  {
    if n < 10 {
      assert Dec(n)[..0] == [];
      assert Acc(v, []) == Some(v);
      PushFits(v, n);
      assert Acc(v, Dec(n)) == Push(v, 48 + n);
    } else {
      var q, d := n / 10, n % 10;
      var s := Dec(n);
      assert s[..|s| - 1] == Dec(q);
      Shift(v, Scale(q), q, d);
      AccDec(v, q);
      PushFits(v * Scale(q) + q, d);
    }
  }

  lemma Shift(v: nat, p: nat, q: nat, d: nat)
    ensures v * (10 * p) + (10 * q + d) == (v * p + q) * 10 + d
    ensures v * p + q <= (v * p + q) * 10 + d
  {
  }

  lemma AccOwn(n: nat)
    requires n <= MAX_U32
    ensures Acc(0, Dec(n)) == Some(n)
  {
    AccDec(0, n);
  }

  lemma {:induction false} ScaleBound(n: nat)
    requires n < SLOTS
    ensures Scale(n) <= 100000
  {
    assert n >= 10 ==> Scale(n) == 10 * Scale(n / 10);
    assert n >= 100 ==> Scale(n / 10) == 10 * Scale(n / 10 / 10);
    assert n >= 1000 ==> Scale(n / 10 / 10) == 10 * Scale(n / 10 / 10 / 10);
    assert n >= 10000 ==> Scale(n / 10 / 10 / 10) == 10 * Scale(n / 10 / 10 / 10 / 10);
  }

  // ---------------------------------------------------------------- runs

  /** A range of slots a..b. */
  datatype Range = Range(a: nat, b: nat)

  function TokenOf(r: Range): (tok: seq<Byte>)
    ensures |tok| > 0 && forall i :: 0 <= i < |tok| ==> !IsBlank(tok[i])
  {
    if r.a == r.b then Dec(r.a) else Dec(r.a) + [HYPHEN] + Dec(r.b)
  }

  lemma Reads(tok: seq<Byte>, left: seq<Byte>, right: seq<Byte>)
    requires tok == left + [HYPHEN] + right && |left| > 0 && |right| > 0
    requires forall i :: 0 <= i < |left| ==> left[i] != HYPHEN
    ensures Bounds(tok) == match Acc(0, left)
      case None => None
      case Some(a) => (match Acc(a, right) case None => None case Some(b) => Some((a, b)))
  {
    HyphenIs(tok, |left|);
    assert tok[..|left|] == left && tok[|left| + 1..] == right;
  }

  /** What the parser reads from a rendered range: the digits of the end are appended to the start. */
  lemma BoundsOfToken(r: Range)
    requires r.a <= r.b < SLOTS
    ensures Bounds(TokenOf(r)) == Some(if r.a == r.b then (r.a, r.a) else (r.a, r.a * Scale(r.b) + r.b))
  {
    hide Acc;
    var tok := TokenOf(r);
    AccOwn(r.a);
    if r.a == r.b {
      HyphenIs(tok, |tok|);
      assert tok[..|tok|] == tok;
    } else {
      Fits(r.a, r.b);
      AccDec(r.a, r.b);
      Reads(tok, Dec(r.a), Dec(r.b));
    }
  }

  lemma Fits(a: nat, b: nat)
    requires a < SLOTS && b < SLOTS
    ensures a * Scale(b) + b <= MAX_U32
  {
    ScaleBound(b);
    MulBound(a, Scale(b));
  }

  lemma {:induction false} MulMono(a: nat, b: nat, p: nat)
    requires a <= b
    ensures a * p <= b * p
  {
    if p > 0 {
      MulMono(a, b, p - 1);
      assert a * p == a * (p - 1) + a && b * p == b * (p - 1) + b;
    }
  }

  lemma MulBound(a: nat, p: nat)
    requires a <= 16383 && p <= 100000
    ensures a * p <= 1638300000
  {
    MulMono(a, 16383, p);
  }

  /** A rendered range is read back exactly when it is one slot, starts at 0 or ends at the last slot. */
  predicate Faithful(r: Range) { r.a == r.b || r.a == 0 || r.b == SLOTS - 1 }

  lemma TokenSets(r: Range, t: nat)
    requires r.a <= r.b < SLOTS
    ensures Sets(TokenOf(r), t) <==> r.a <= t <= if Faithful(r) then r.b else Min(r.a * Scale(r.b) + r.b, SLOTS - 1)
    ensures !Faithful(r) ==> Sets(TokenOf(r), r.b + 1)
  {
    hide Bounds, Scale, TokenOf;
    BoundsOfToken(r);
    Grows(r.a, Scale(r.b));
  }

  lemma Grows(a: nat, p: nat)
    ensures a >= 1 ==> a * p >= p
    ensures a == 0 ==> a * p == 0
  {
  }

  // ---------------------------------------------------------------- the runs of a bitmap

  /** A maximal run of slots. */
  ghost predicate IsRun(bm: Bitmap, r: Range) {
    && r.a <= r.b < SLOTS && (forall t :: r.a <= t <= r.b ==> Has(bm, t))
    && (r.a == 0 || !Has(bm, r.a - 1)) && !Has(bm, r.b + 1)
  }

  /** The end of the run that i is in. */
  function EndOf(bm: Bitmap, i: nat): (j: nat)
    requires i <= SLOTS
    ensures i <= j <= SLOTS && (forall t :: i <= t < j ==> Has(bm, t)) && (j < SLOTS ==> !Has(bm, j))
    decreases SLOTS - i
  {
    if i == SLOTS || !Has(bm, i) then i else EndOf(bm, i + 1)
  }

  lemma {:induction false} EndIs(bm: Bitmap, i: nat, j: nat)
    requires i <= j <= SLOTS && (forall t :: i <= t < j ==> Has(bm, t)) && (j < SLOTS ==> !Has(bm, j))
    ensures EndOf(bm, i) == j
    decreases j - i
  {
    hide Has;
    if i < j { EndIs(bm, i + 1, j); }
  }

  /** All runs from slot i on, in order. */
  function RunsFrom(bm: Bitmap, i: nat): seq<Range>
    requires i <= SLOTS
    decreases SLOTS - i
  {
    if i == SLOTS then []
    else if !Has(bm, i) then RunsFrom(bm, i + 1)
    else [Range(i, EndOf(bm, i) - 1)] + RunsFrom(bm, EndOf(bm, i))
  }

  /** RunsFrom lists exactly the maximal runs. */
  lemma {:induction false} RunsAre(bm: Bitmap, i: nat, r: Range)
    requires i <= SLOTS && (i == 0 || i == SLOTS || !Has(bm, i - 1) || !Has(bm, i))
    ensures r in RunsFrom(bm, i) <==> i <= r.a && IsRun(bm, r)
    decreases SLOTS - i
  {
    hide Has;
    if i == SLOTS {
    } else if !Has(bm, i) {
      RunsAre(bm, i + 1, r);
    } else {
      var j := EndOf(bm, i);
      assert j > i;
      NoSlotAt(bm);
      RunsAre(bm, j, r);
      HeadRun(bm, i, j, r);
    }
  }

  lemma HeadRun(bm: Bitmap, i: nat, j: nat, r: Range)
    requires i < j <= SLOTS && (forall t :: i <= t < j ==> Has(bm, t)) && !Has(bm, j) && (i == 0 || !Has(bm, i - 1))
    ensures i <= r.a && IsRun(bm, r) <==> r == Range(i, j - 1) || (j <= r.a && IsRun(bm, r))
  {
    hide Has;
    assert i < r.a < j ==> Has(bm, r.a - 1);
    assert i <= r.a <= r.b < j - 1 ==> Has(bm, r.b + 1);
    assert r.a <= j <= r.b && IsRun(bm, r) ==> Has(bm, j);
  }

  /** Every slot that is on lies in a run. */
  lemma InRun(bm: Bitmap, t: nat)
    requires Has(bm, t)
    ensures exists r :: IsRun(bm, r) && r.a <= t <= r.b
  {
    HasBelow(bm, t);
    hide Has;
    var a := t;
    while a > 0 && Has(bm, a - 1)
      invariant 0 <= a <= t && forall k :: a <= k <= t ==> Has(bm, k)
    {
      a := a - 1;
    }
    var b := t;
    while b + 1 < SLOTS && Has(bm, b + 1)
      invariant t <= b < SLOTS && forall k :: a <= k <= b ==> Has(bm, k)
    {
      b := b + 1;
    }
    NoSlotAt(bm);
    assert IsRun(bm, Range(a, b));
  }

  lemma HasBelow(bm: Bitmap, t: nat)
    requires Has(bm, t)
    ensures t < SLOTS
  {
  }

  lemma NoSlotAt(bm: Bitmap)
    ensures !Has(bm, SLOTS)
  {
  }

  // ---------------------------------------------------------------- text

  function TextOf(rs: seq<Range>): seq<Byte> {
    if rs == [] then []
    else if |rs| == 1 then TokenOf(rs[0])
    else TextOf(rs[..|rs| - 1]) + [SPACE] + TokenOf(rs[|rs| - 1])
  }

  lemma TextSnoc(rs: seq<Range>, r: Range)
    ensures TextOf(rs + [r]) == TextOf(rs) + (if rs == [] then [] else [SPACE]) + TokenOf(r)
    ensures rs != [] ==> TextOf(rs) != []
  {
    hide TokenOf;
    assert (rs + [r])[..|rs|] == rs;
  }

  lemma {:induction false} TokensSnoc(s: seq<Byte>, tok: seq<Byte>)
    requires |tok| > 0 && forall i :: 0 <= i < |tok| ==> !IsBlank(tok[i])
    ensures Tokens(s + [SPACE] + tok) == Tokens(s) + [tok]
    decreases |s|
  {
    var all := s + [SPACE] + tok;
    if s == [] {
      assert all[1..] == tok;
      OneToken(tok);
    } else if IsBlank(s[0]) {
      assert all[1..] == s[1..] + [SPACE] + tok;
      TokensSnoc(s[1..], tok);
    } else {
      var n := TokenLen(s);
      TokenLenIs(all, n);
      assert all[..n] == s[..n] && all[n..] == s[n..] + [SPACE] + tok;
      TokensSnoc(s[n..], tok);
    }
  }

  lemma OneToken(tok: seq<Byte>)
    requires |tok| > 0 && forall i :: 0 <= i < |tok| ==> !IsBlank(tok[i])
    ensures Tokens(tok) == [tok]
  {
    TokenLenIs(tok, |tok|);
    assert tok[..|tok|] == tok && tok[|tok|..] == [];
  }

  /** The tokens of a rendered text are the rendered runs. */
  lemma {:induction false} TokensOfText(rs: seq<Range>, tok: seq<Byte>)
    ensures tok in Tokens(TextOf(rs)) <==> exists r :: r in rs && tok == TokenOf(r)
  {
    hide TokenOf;
    if |rs| == 1 {
      OneToken(TokenOf(rs[0]));
    } else if |rs| > 1 {
      var init, last := rs[..|rs| - 1], rs[|rs| - 1];
      TokensOfText(init, tok);
      TokensSnoc(TextOf(init), TokenOf(last));
      assert rs == init + [last];
    }
  }

  /** cluster_slots_render: run after run, as long as the text fits its buffer. */
  method Render(bm: Bitmap, cap: nat) returns (rc: int, out: seq<Byte>, ghost k: nat)
    ensures cap == 0 ==> rc == -1
    ensures cap > 0 ==> rc == |out| < cap && k <= |RunsFrom(bm, 0)| && out == TextOf(RunsFrom(bm, 0)[..k])
    ensures cap > 0 ==> k == |RunsFrom(bm, 0)| || |TextOf(RunsFrom(bm, 0)[..k + 1])| >= cap
  {
    hide Has, TextOf, TokenOf, RunsFrom;
    rc, out, k := -1, [], 0;
    if cap == 0 { return; }
    ghost var all := RunsFrom(bm, 0);
    assert all[..0] == [];
    EmptyText();
    var i, s := 0, -1;
    while i <= SLOTS
      invariant 0 <= i <= SLOTS + 1 && -1 <= s < i && k <= |all| && out == TextOf(all[..k]) && |out| < cap
      invariant s == -1 && i <= SLOTS ==> all[k..] == RunsFrom(bm, i)
      invariant s >= 0 ==> i <= SLOTS && all[k..] == RunsFrom(bm, s) && forall t :: s <= t < i ==> Has(bm, t)
      invariant i == SLOTS + 1 ==> s == -1 && k == |all|
      invariant out == [] <==> k == 0
    {
      var on := i < SLOTS && Has(bm, i);
      if on {
        if s < 0 { s := i; }
      } else {
        if s >= 0 {
          CloseRun(bm, s, i);
          ghost var r := Range(s, i - 1);
          assert all[k] == r && all[k + 1..] == RunsFrom(bm, i) by {
            assert all[k..][0] == all[k] && all[k..][1..] == all[k + 1..];
          }
          assert all[..k + 1] == all[..k] + [r];
          TextSnoc(all[..k], r);
          var piece := (if out == [] then [] else [SPACE]) + TokenOf(Range(s, i - 1));
          if |piece| >= cap - |out| { return |out|, out, k; }
          out, k, s := out + piece, k + 1, -1;
        }
        if i < SLOTS { SkipOff(bm, i); } else { NoRuns(bm); }
      }
      i := i + 1;
    }
    assert all[..k] == all;
    rc := |out|;
  }

  lemma EmptyText()
    ensures TextOf([]) == []
  {
  }

  lemma CloseRun(bm: Bitmap, s: nat, i: nat)
    requires s < i <= SLOTS && (forall t :: s <= t < i ==> Has(bm, t)) && (i < SLOTS ==> !Has(bm, i))
    ensures RunsFrom(bm, s) == [Range(s, i - 1)] + RunsFrom(bm, i)
  {
    hide Has;
    EndIs(bm, s, i);
    assert Has(bm, s);
  }

  lemma SkipOff(bm: Bitmap, i: nat)
    requires i < SLOTS && !Has(bm, i)
    ensures RunsFrom(bm, i) == RunsFrom(bm, i + 1)
  {
  }

  lemma NoRuns(bm: Bitmap)
    ensures RunsFrom(bm, SLOTS) == []
  {
  }

  // ---------------------------------------------------------------- round trip

  /** Every run of two slots or more starts at slot 0 or ends at the last slot. */
  ghost predicate Safe(bm: Bitmap) {
    forall r :: IsRun(bm, r) ==> Faithful(r)
  }

  lemma TextOfRuns(rs: seq<Range>, t: nat)
    ensures TextSets(TextOf(rs), t) <==> exists r :: r in rs && Sets(TokenOf(r), t)
  {
    hide TokenOf, Sets, TextOf, Tokens;
    if TextSets(TextOf(rs), t) {
      var tok :| tok in Tokens(TextOf(rs)) && Sets(tok, t);
      TokensOfText(rs, tok);
    }
    if r :| r in rs && Sets(TokenOf(r), t) { TokensOfText(rs, TokenOf(r)); }
  }

  /** A text of some runs of the bitmap sets no other slot, if and only if each of these runs is read back as it is. */
  lemma NothingOutside(bm: Bitmap, rs: seq<Range>)
    requires forall r :: r in rs ==> IsRun(bm, r)
    ensures (forall t: nat :: TextSets(TextOf(rs), t) ==> Has(bm, t)) <==> forall r :: r in rs ==> Faithful(r)
  {
    hide TokenOf, Sets, TextOf, Has, TextSets;
    if forall r :: r in rs ==> Faithful(r) {
      forall t: nat | TextSets(TextOf(rs), t) ensures Has(bm, t) {
        TextOfRuns(rs, t);
        var r :| r in rs && Sets(TokenOf(r), t);
        TokenSets(r, t);
      }
    } else {
      var r :| r in rs && !Faithful(r);
      TokenSets(r, r.b + 1);
      TextOfRuns(rs, r.b + 1);
      assert !Has(bm, r.b + 1);
    }
  }

  /** The text of all runs is read back as the same slots, if and only if the bitmap is safe. */
  lemma TextRoundTrip(bm: Bitmap)
    ensures (forall t: nat :: TextSets(TextOf(RunsFrom(bm, 0)), t) <==> Has(bm, t)) <==> Safe(bm)
  {
    hide TokenOf, Sets, TextOf, Has, TextSets, RunsFrom, Faithful, IsRun;
    var rs := RunsFrom(bm, 0);
    forall r ensures r in rs <==> IsRun(bm, r) { RunsAre(bm, 0, r); }
    NothingOutside(bm, rs);
    if Safe(bm) {
      forall t: nat | Has(bm, t) ensures TextSets(TextOf(rs), t) {
        InRun(bm, t);
        var r :| IsRun(bm, r) && r.a <= t <= r.b;
        RunBounds(bm, r);
        TokenSets(r, t);
        TextOfRuns(rs, t);
      }
    }
  }

  lemma RunBounds(bm: Bitmap, r: Range)
    requires IsRun(bm, r)
    ensures r.a <= r.b < SLOTS
  {
  }

  lemma {:induction false} PrefixShorter(rs: seq<Range>, k: nat)
    requires k <= |rs|
    ensures |TextOf(rs[..k])| <= |TextOf(rs)|
    decreases |rs|
  {
    hide TokenOf;
    if k < |rs| {
      var init := rs[..|rs| - 1];
      assert init[..k] == rs[..k] && rs == init + [rs[|rs| - 1]];
      PrefixShorter(init, k);
      TextSnoc(init, rs[|rs| - 1]);
    } else {
      assert rs[..k] == rs;
    }
  }

  /** Parsing what was rendered. With room for the whole text the slots come back exactly when the bitmap is safe;
      cut short, the text sets no slot outside the bitmap exactly when the runs it shows are read back as they are. */
  method RenderAndParse(bm: Bitmap, cap: nat) returns (back: Bitmap, ghost k: nat)
    requires cap > 0
    ensures |TextOf(RunsFrom(bm, 0))| < cap ==> (back == bm <==> Safe(bm))
    ensures k <= |RunsFrom(bm, 0)|
    ensures (forall t: nat :: Has(back, t) ==> Has(bm, t)) <==> forall r :: r in RunsFrom(bm, 0)[..k] ==> Faithful(r)
  {
    hide TokenOf, Sets, TextOf, Has, TextSets, RunsFrom, Faithful, IsRun;
    var rc, text;
    rc, text, k := Render(bm, cap);
    back := Parse(text);
    ghost var all := RunsFrom(bm, 0);
    forall r | r in all[..k] ensures IsRun(bm, r) { assert r in all; RunsAre(bm, 0, r); }
    NothingOutside(bm, all[..k]);
    if |TextOf(all)| < cap {
      if k < |all| { PrefixShorter(all, k + 1); }
      assert all[..k] == all;
      TextRoundTrip(bm);
      if Safe(bm) { Extensional(back, bm); }
    }
  }

  /** Slots 5 to 7 come back with slot 8 as well: the text "5-7" is read as 5 to 57. */
  lemma FiveToSeven()
    ensures Bounds([53, 45, 55]) == Some((5, 57)) && TokenOf(Range(5, 7)) == [53, 45, 55] && Sets([53, 45, 55], 8)
  {
    var r := Range(5, 7);
    assert Dec(5) == [53] && Dec(7) == [55] && Scale(7) == 10;
    BoundsOfToken(r);
  }
}
