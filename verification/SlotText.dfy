/** Slot ranges as text: what the parser reads, token by token. */
module SlotText {
  import opened Basics
  import opened Bytes
  import opened SlotBitmap

  const SPACE: Byte := 32
  const HYPHEN: Byte := 45
  const MAX_U32 := 0xFFFF_FFFF

  datatype Option<T> = None | Some(value: T)

  predicate IsBlank(c: Byte) { c == 32 || c == 9 || c == 13 || c == 10 }

  predicate IsDigit(c: Byte) { 48 <= c <= 57 }

  // ---------------------------------------------------------------- numbers

  function Push(v: nat, c: Byte): Option<nat> {
    if !IsDigit(c) then None
    else if v > (MAX_U32 - (c - 48)) / 10 then None
    else Some(v * 10 + (c - 48))
  }

  /** The digits of s appended to v, unless that is no number of 32 bits. */
  function Acc(v: nat, s: seq<Byte>): Option<nat> {
    if s == [] then Some(v)
    else match Acc(v, s[..|s| - 1])
      case None => None
      case Some(w) => Push(w, s[|s| - 1])
  }

  lemma {:induction false} AccStuck(v: nat, s: seq<Byte>, n: nat)
    requires n <= |s| && Acc(v, s[..n]) == None
    ensures Acc(v, s) == None
    decreases |s|
  {
    if n < |s| {
      var p := s[..|s| - 1];
      assert p[..n] == s[..n];
      AccStuck(v, p, n);
    } else {
      assert s[..n] == s;
    }
  }

  lemma AccBad(v: nat, s: seq<Byte>, k: nat)
    requires k < |s| && !IsDigit(s[k])
    ensures Acc(v, s) == None
  {
    assert s[..k + 1][..k] == s[..k];
    AccStuck(v, s, k + 1);
  }

  /** The digit loop of the parser. */
  method ReadDigits(v: nat, s: seq<Byte>) returns (r: Option<nat>)
    ensures r == Acc(v, s)
  {
    var w := v;
    for p := 0 to |s|
      invariant Acc(v, s[..p]) == Some(w)
    {
      assert s[..p + 1][..p] == s[..p];
      if !IsDigit(s[p]) || w > (MAX_U32 - (s[p] - 48)) / 10 {
        AccStuck(v, s, p + 1);
        return None;
      }
      w := w * 10 + (s[p] - 48);
    }
    assert s[..|s|] == s;
    return Some(w);
  }

  // ---------------------------------------------------------------- tokens

  /** The first hyphen, or the end. */
  function HyphenAt(tok: seq<Byte>): (d: nat)
    ensures d <= |tok| && (d < |tok| ==> tok[d] == HYPHEN) && forall k :: 0 <= k < d ==> tok[k] != HYPHEN
  {
    if tok == [] || tok[0] == HYPHEN then 0 else 1 + HyphenAt(tok[1..])
  }

  /** The bounds that a token is read as. The right-hand number starts from the left-hand one. */
  function Bounds(tok: seq<Byte>): Option<(nat, nat)> {
    var d := HyphenAt(tok);
    if d == 0 then None
    else match Acc(0, tok[..d])
      case None => None
      case Some(a) =>
        if d == |tok| then Some((a, a))
        else if d + 1 == |tok| then None
        else match Acc(a, tok[d + 1..])
          case None => None
          case Some(b) => Some((a, b))
  }

  /** The slots that a token sets. */
  predicate Sets(tok: seq<Byte>, t: nat) {
    match Bounds(tok)
    case None => false
    case Some(r) => r.0 <= 16383 && r.0 <= r.1 && r.0 <= t <= Min(r.1, 16383)
  }

  /** The length of the token that s starts with. */
  function TokenLen(s: seq<Byte>): (n: nat)
    ensures n <= |s| && (n < |s| ==> IsBlank(s[n])) && forall k :: 0 <= k < n ==> !IsBlank(s[k])
  {
    if s == [] || IsBlank(s[0]) then 0 else 1 + TokenLen(s[1..])
  }

  /** The tokens of a text. */
  function Tokens(s: seq<Byte>): seq<seq<Byte>>
    decreases |s|
  {
    if s == [] then []
    else if IsBlank(s[0]) then Tokens(s[1..])
    else [s[..TokenLen(s)]] + Tokens(s[TokenLen(s)..])
  }

  ghost predicate AnySets(toks: seq<seq<Byte>>, t: nat) {
    exists tok :: tok in toks && Sets(tok, t)
  }

  ghost predicate TextSets(s: seq<Byte>, t: nat) { AnySets(Tokens(s), t) }

  /** One token: scan for hyphens, read both sides. */
  method ReadToken(tok: seq<Byte>) returns (r: Option<(nat, nat)>)
    ensures r == Bounds(tok)
  {
    hide Acc;
    var dash, invalid := |tok|, false;
    for i := 0 to |tok|
      invariant 0 <= dash <= |tok|
      invariant dash == |tok| ==> !invalid && forall k :: 0 <= k < i ==> tok[k] != HYPHEN
      invariant dash < |tok| ==> dash < i && tok[dash] == HYPHEN && forall k :: 0 <= k < dash ==> tok[k] != HYPHEN
      invariant invalid ==> dash < |tok| && exists k :: dash < k < |tok| && tok[k] == HYPHEN
    {
      if tok[i] == HYPHEN {
        if dash != |tok| { invalid := true; } else { dash := i; }
      }
    }
    HyphenIs(tok, dash);
    if invalid {
      var k :| dash < k < |tok| && tok[k] == HYPHEN;
      if dash > 0 { TwoHyphens(tok, dash, k); }
      return None;
    }
    if dash == 0 { return None; }
    var a := ReadDigits(0, tok[..dash]);
    if a == None { return None; }
    if dash == |tok| { return Some((a.value, a.value)); }
    if dash + 1 == |tok| { return None; }
    var b := ReadDigits(a.value, tok[dash + 1..]);
    if b == None { return None; }
    return Some((a.value, b.value));
  }

  lemma {:induction false} HyphenIs(tok: seq<Byte>, d: nat)
    requires d <= |tok| && (d < |tok| ==> tok[d] == HYPHEN) && forall k :: 0 <= k < d ==> tok[k] != HYPHEN
    ensures HyphenAt(tok) == d
  {
    if d > 0 { HyphenIs(tok[1..], d - 1); }
  }

  lemma TwoHyphens(tok: seq<Byte>, d: nat, k: nat)
    requires 0 < d == HyphenAt(tok) < k < |tok| && tok[k] == HYPHEN
    ensures Bounds(tok) == None
  {
    match Acc(0, tok[..d])
    case None =>
    case Some(a) =>
      assert tok[d + 1..][k - d - 1] == HYPHEN;
      AccBad(a, tok[d + 1..], k - d - 1);
  }

  /** Slots a..b switched on. */
  method SetRange(bm0: Bitmap, a: nat, b: nat) returns (bm: Bitmap)
    requires b <= 16383
    ensures forall t: nat :: Has(bm, t) == (Has(bm0, t) || a <= t <= b)
  {
    hide Has, With;
    bm := bm0;
    var i := a;
    while i <= b
      invariant a <= i && (i <= b + 1 || i == a)
      invariant forall t: nat :: Has(bm, t) == (Has(bm0, t) || a <= t < i)
    {
      forall t: nat ensures Has(With(bm, i, true), t) == (t == i || Has(bm, t)) { HasWith(bm, i, true, t); }
      bm := With(bm, i, true);
      i := i + 1;
    }
  }

  /** cluster_slots_parse: exactly the slots that some token sets. */
  method Parse(s: seq<Byte>) returns (bm: Bitmap)
    ensures forall t: nat :: Has(bm, t) <==> TextSets(s, t)
  {
    hide Has, With, Bounds, TokenLen, AnySets, IsBlank;
    bm := Empty();
    var i := 0;
    ghost var done: seq<seq<Byte>> := [];
    assert s[0..] == s;
    NoneSets();
    while i < |s|
      invariant 0 <= i <= |s| && Tokens(s) == done + Tokens(s[i..])
      invariant forall t: nat :: Has(bm, t) <==> AnySets(done, t)
    {
      if IsBlank(s[i]) {
        assert s[i..][1..] == s[i + 1..];
        i := i + 1;
      } else {
        var n := ScanToken(s, i);
        var tok := s[i..i + n];
        assert s[i..][..n] == tok && s[i..][n..] == s[i + n..];
        var r := ReadToken(tok);
        if r.Some? && r.value.0 <= 16383 && r.value.0 <= r.value.1 {
          bm := SetRange(bm, r.value.0, Min(r.value.1, 16383));
        }
        OneMore(done, tok);
        done := done + [tok];
        i := i + n;
      }
    }
    assert s[|s|..] == [];
    assert done == Tokens(s);
  }

  lemma NoneSets()
    ensures forall t: nat :: !AnySets([], t)
  {
  }

  lemma OneMore(done: seq<seq<Byte>>, tok: seq<Byte>)
    ensures forall t: nat :: AnySets(done + [tok], t) <==> AnySets(done, t) || Sets(tok, t)
  {
    hide Bounds;
  }

  method ScanToken(s: seq<Byte>, i: nat) returns (n: nat)
    requires i < |s| && !IsBlank(s[i])
    ensures n == TokenLen(s[i..]) && n > 0
  {
    var j := i;
    while j < |s| && !IsBlank(s[j])
      invariant i <= j <= |s| && forall k :: i <= k < j ==> !IsBlank(s[k])
    {
      j := j + 1;
    }
    n := j - i;
    TokenLenIs(s[i..], n);
  }

  lemma {:induction false} TokenLenIs(s: seq<Byte>, n: nat)
    requires n <= |s| && (n < |s| ==> IsBlank(s[n])) && forall k :: 0 <= k < n ==> !IsBlank(s[k])
    ensures TokenLen(s) == n
  {
    if n > 0 { TokenLenIs(s[1..], n - 1); }
  }
}
