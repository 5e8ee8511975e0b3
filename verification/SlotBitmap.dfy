/** The bitmap of the hash slots that a node serves. */
module SlotBitmap {
  import opened Basics
  import opened Bytes

  const SLOTS := 16384

  type Bitmap = bm: seq<Byte> | |bm| == 2048 witness seq(2048, _ => 0)

  /** cluster_slots_get */
  predicate Has(bm: Bitmap, slot: nat) {
    slot < SLOTS && Bit(bm[slot / 8], slot % 8)
  }

  /** cluster_slots_set */
  function With(bm: Bitmap, slot: nat, on: bool): Bitmap {
    if slot >= SLOTS then bm else
      WithBitBound(bm[slot / 8], slot % 8, on, 8);
      bm[slot / 8 := WithBit(bm[slot / 8], slot % 8, on)]
  }

  /** Setting a slot changes that slot and no other. */
  lemma HasWith(bm: Bitmap, slot: nat, on: bool, t: nat)
    ensures Has(With(bm, slot, on), t) == if t == slot && slot < SLOTS then on else Has(bm, t)
  {
    if slot < SLOTS && t < SLOTS {
      SlotSplit(slot);
      SlotSplit(t);
      if t / 8 == slot / 8 { BitWithBit(bm[slot / 8], slot % 8, on, t % 8); }
    }
  }

  lemma SlotSplit(s: nat)
    requires s < SLOTS
    ensures s / 8 < 2048 && s == 8 * (s / 8) + s % 8 && s % 8 < 8
  {
  }

  function Empty(): (bm: Bitmap)
    ensures forall s :: !Has(bm, s)
  {
    var bm: Bitmap := seq(2048, _ => 0);
    NoBits();
    bm
  }

  lemma {:induction false} ZeroBit(k: nat)
    ensures !Bit(0, k)
  {
    if k > 0 { ZeroBit(k - 1); }
  }

  lemma NoBits()
    ensures forall k :: !Bit(0, k)
  {
    forall k ensures !Bit(0, k) { ZeroBit(k); }
  }

  /** Bitmaps with the same slots are the same bytes. */
  lemma Extensional(a: Bitmap, b: Bitmap)
    requires forall s :: 0 <= s < SLOTS ==> Has(a, s) == Has(b, s)
    ensures a == b
  {
    forall i | 0 <= i < 2048 ensures a[i] == b[i] {
      forall k | 0 <= k < 8 ensures Bit(a[i], k) == Bit(b[i], k) {
        assert Has(a, 8 * i + k) == Has(b, 8 * i + k);
        assert (8 * i + k) / 8 == i && (8 * i + k) % 8 == k;
      }
      assert Pow2(8) == 256;
      BitsDetermine(a[i], b[i], 8);
    }
  }
}
