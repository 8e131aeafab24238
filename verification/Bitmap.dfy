/** The bitmap of src/kern/lib/bitmap.c: bits in an array of bytes. */
module Bitmaps {

  /** The byte with only bit j set. */
  function Mask(j: nat): bv8
    requires j < 8
  {
    if j == 0 then 1 else if j == 1 then 2 else if j == 2 then 4 else if j == 3 then 8
    else if j == 4 then 16 else if j == 5 then 32 else if j == 6 then 64 else 128
  }

  predicate Bit(w: bv8, j: nat)
    requires j < 8
  {
    w & Mask(j) != 0
  }

  lemma SetMask(w: bv8, i: nat, j: nat)
    requires i < 8 && j < 8
    ensures Bit(w | Mask(i), j) <==> j == i || Bit(w, j)
  {
  }

  lemma ClearMask(w: bv8, i: nat, j: nat)
    requires i < 8 && j < 8
    ensures Bit(w & !Mask(i), j) <==> j != i && Bit(w, j)
  {
  }

  lemma FullWord(w: bv8)
    ensures w == 0xff <==> forall j | 0 <= j < 8 :: Bit(w, j)
  {
    if forall j | 0 <= j < 8 :: Bit(w, j) {
      assert Bit(w, 0) && Bit(w, 1) && Bit(w, 2) && Bit(w, 3) && Bit(w, 4) && Bit(w, 5) && Bit(w, 6) && Bit(w, 7);
    }
  }

  /** Bit i of a sequence of bytes. */
  predicate BitAt(v: seq<bv8>, i: nat)
    requires i < 8 * |v|
  {
    Bit(v[i / 8], i % 8)
  }

  lemma SetAt(v: seq<bv8>, k: nat, i: nat)
    requires k < 8 * |v| && i < 8 * |v|
    ensures BitAt(v[k / 8 := v[k / 8] | Mask(k % 8)], i) <==> i == k || BitAt(v, i)
  {
    if i / 8 == k / 8 {
      SetMask(v[k / 8], k % 8, i % 8);
    }
  }

  lemma ClearAt(v: seq<bv8>, k: nat, i: nat)
    requires k < 8 * |v| && i < 8 * |v|
    ensures BitAt(v[k / 8 := v[k / 8] & !Mask(k % 8)], i) <==> i != k && BitAt(v, i)
  {
    if i / 8 == k / 8 {
      ClearMask(v[k / 8], k % 8, i % 8);
    }
  }

  class Bitmap {
    const nbits: nat
    const v: array<bv8>

    /** The bits past the end of the bitmap are in use. */
    ghost predicate Valid()
      reads this, v
    {
      && v.Length == (nbits + 7) / 8
      && forall i | nbits <= i < 8 * v.Length :: BitAt(v[..], i)
    }

    ghost function Bits(): (b: seq<bool>)
      requires Valid()
      reads this, v
      ensures |b| == nbits
    {
      seq(nbits, i requires 0 <= i < nbits reads this, v requires Valid() => BitAt(v[..], i))
    }

    /** bitmap_create. */
    constructor (n: nat)
      ensures nbits == n && Valid() && fresh(v)
      ensures forall i | 0 <= i < n :: !Bits()[i]
    {
      nbits := n;
      var words := (n + 7) / 8;
      v := new bv8[words](_ => 0);
      new;
      if words > n / 8 {
        var ix := words - 1;
        var overbits := n - ix * 8;
        var j := overbits;
        while j < 8
          invariant overbits <= j <= 8
          invariant forall i | 0 <= i < ix :: v[i] == 0
          invariant forall k | 0 <= k < 8 :: Bit(v[ix], k) <==> overbits <= k < j
        {
          var w := v[ix];
          v[ix] := w | Mask(j);
          forall k | 0 <= k < 8
            ensures Bit(v[ix], k) <==> k == j || Bit(w, k)
          {
            SetMask(w, j, k);
          }
          j := j + 1;
        }
      }
    }

    /** bitmap_alloc: sets and returns the lowest clear bit. */
    method Alloc() returns (ok: bool, index: nat)
      requires Valid()
      modifies v
      ensures Valid()
      ensures !ok <==> forall i | 0 <= i < nbits :: old(Bits())[i]
      ensures !ok ==> Bits() == old(Bits())
      ensures ok ==> index < nbits && !old(Bits())[index] && (forall i | 0 <= i < index :: old(Bits())[i])
                     && Bits() == old(Bits())[index := true]
    {
      var maxix := (nbits + 7) / 8;
      var ix := 0;
      while ix < maxix
        invariant ix <= maxix
        invariant v[..] == old(v[..])
        invariant forall i | 0 <= i < 8 * ix :: BitAt(v[..], i)
      {
        if v[ix] != 0xff {
          FullWord(v[ix]);
          assert Bits() == old(Bits());
          index := SetFirst(ix);
          return true, index;
        }
        FullWord(v[ix]);
        ix := ix + 1;
      }
      return false, 0;
    }

    /** The inner loop of bitmap_alloc, for a byte that is not full. */
    method SetFirst(ix: nat) returns (index: nat)
      requires Valid() && ix < v.Length && (exists j | 0 <= j < 8 :: !Bit(v[ix], j))
      requires forall i | 0 <= i < 8 * ix :: BitAt(v[..], i)
      modifies v
      ensures Valid()
      ensures index < nbits && !old(Bits())[index] && (forall i | 0 <= i < index :: old(Bits())[i])
      ensures Bits() == old(Bits())[index := true]
    {
      var offset := 0;
      while offset < 8
        invariant offset <= 8
        invariant v[..] == old(v[..])
        invariant forall i | 0 <= i < 8 * ix + offset :: BitAt(v[..], i)
      {
        if v[ix] & Mask(offset) == 0 {
          index := ix * 8 + offset;
          assert !BitAt(v[..], index);
          assert index < nbits;
          SetIn(index);
          return;
        }
        assert BitAt(v[..], 8 * ix + offset);
        offset := offset + 1;
      }
      assert forall j | 0 <= j < 8 :: BitAt(v[..], 8 * ix + j) == Bit(v[ix], j);
      assert false;
    }

    method SetIn(k: nat)
      requires Valid() && k < nbits
      modifies v
      ensures Valid() && Bits() == old(Bits())[k := true]
    {
      ghost var was := v[..];
      v[k / 8] := v[k / 8] | Mask(k % 8);
      assert v[..] == was[k / 8 := was[k / 8] | Mask(k % 8)];
      forall i | 0 <= i < 8 * v.Length
        ensures BitAt(v[..], i) <==> i == k || BitAt(was, i)
      {
        SetAt(was, k, i);
      }
    }

    /** bitmap_mark. */
    method Mark(index: nat)
      requires Valid() && index < nbits && !Bits()[index]
      modifies v
      ensures Valid() && Bits() == old(Bits())[index := true]
    {
      assert v[index / 8] & Mask(index % 8) == 0;
      SetIn(index);
    }

    /** bitmap_unmark. */
    method Unmark(index: nat)
      requires Valid() && index < nbits && Bits()[index]
      modifies v
      ensures Valid() && Bits() == old(Bits())[index := false]
    {
      ghost var was := v[..];
      assert v[index / 8] & Mask(index % 8) != 0;
      v[index / 8] := v[index / 8] & !Mask(index % 8);
      assert v[..] == was[index / 8 := was[index / 8] & !Mask(index % 8)];
      forall i | 0 <= i < 8 * v.Length
        ensures BitAt(v[..], i) <==> i != index && BitAt(was, i)
      {
        ClearAt(was, index, i);
      }
    }

    /** bitmap_isset. */
    method IsSet(index: nat) returns (on: bool)
      requires Valid() && index < nbits
      ensures on == Bits()[index]
    {
      on := v[index / 8] & Mask(index % 8) != 0;
    }
  }
}
