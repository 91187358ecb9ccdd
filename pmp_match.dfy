/** The address matcher and the supervisor-mode verdict of pmp_mem_check:
    the region each entry selects (OFF, TOR, NA4, NAPOT, following section
    3.7.1 of the RISC-V Privileged Architecture), the NAPOT encoding the unit
    tests use and the lowest-index-first scan over the entries. Regions are
    half-open byte ranges computed on unbounded integers. */
module PmpMatch {
  import opened Words
  import opened PmpConfig

  datatype Option<T> = None | Some(value: T)

  /** RV_ACCESS_OK / RV_ACCESS_ERR. */
  datatype Access = AccessOk | AccessErr

  /** The bytes lo .. hi-1. */
  datatype Range = Range(lo: int, hi: int) {
    predicate Contains(a: int) {
      lo <= a < hi
    }
  }

  function Pow2(k: nat): (p: nat)
    ensures p >= 1
  {
    if k == 0 then 1 else 2 * Pow2(k - 1)
  }

  /** Field width of a pmpaddr register (XLEN = 64). */
  const AddrBits: nat := 64

  /** NAPOT decoding of a pmpaddr value, in 4-byte units: scanning from bit 0
      up to the lowest zero bit (at most `width` bits), a field with t trailing
      ones selects 2^(t+1) units whose base is the field with those t bits
      cleared. The result is (base, size). */
  function NapotUnits(field: nat, width: nat): (bs: (nat, nat))
    ensures bs.1 >= 2
  {
    if width == 0 || field % 2 == 0 then (field, 2)
    else
      var inner := NapotUnits(field / 2, width - 1);
      (2 * inner.0, 2 * inner.1)
  }

  /** The byte range a NAPOT entry with pmpaddr `field` selects. */
  function NapotRegion(field: Word): Range
  {
    var bs := NapotUnits(field, AddrBits);
    Range(4 * bs.0, 4 * (bs.0 + bs.1))
  }

  /** pmp_set_napot_addr: (base + (size/2 - 1)) >> 2 in 64-bit unsigned arithmetic. */
  function NapotEncode(base: Word, size: Word): Word
  {
    Add64(base, Sub64(size / 2, 1)) / 4
  }

  /** The n low bits of x are zero, stated bit by bit. */
  predicate LowZeros(x: nat, n: nat)
  {
    n == 0 || (x % 2 == 0 && LowZeros(x / 2, n - 1))
  }

  lemma MulDivExact(p: nat, c: nat)
    requires p > 0
    ensures (p * c) / p == c && (p * c) % p == 0
  {
    var q := (p * c) / p;
    var r := (p * c) % p;
    assert p * c == p * q + r;
    assert p * (c - q) == r;
    assert c - q >= 1 ==> p * (c - q) >= p;
    assert c - q <= -1 ==> p * (c - q) + p <= 0;
  }

  lemma {:induction false} LowZerosOfMultiple(x: nat, n: nat)
    requires x % Pow2(n) == 0
    ensures LowZeros(x, n)
  {
    if n > 0 {
      var p := Pow2(n - 1);
      var c := x / (2 * p);
      assert x == (2 * p) * c;
      assert (2 * p) * c == 2 * (p * c);
      assert x / 2 == p * c;
      MulDivExact(p, c);
      LowZerosOfMultiple(x / 2, n - 1);
    }
  }

  lemma {:induction false} LowZerosOfZero(n: nat)
    ensures LowZeros(0, n)
  {
    if n > 0 {
      LowZerosOfZero(n - 1);
    }
  }

  /** A field made of j trailing ones above a zero bit, on a base b whose low
      j+1 bits are zero, decodes to the 2^(j+1)-unit block at b. */
  lemma {:induction false} NapotUnitsOfOnes(b: nat, j: nat, width: nat)
    requires j <= width && LowZeros(b, j + 1)
    ensures NapotUnits(b + Pow2(j) - 1, width) == (b, 2 * Pow2(j))
  {
    if j > 0 {
      var p := Pow2(j - 1);
      var field := b + 2 * p - 1;
      assert field == 2 * (b / 2 + p - 1) + 1;
      NapotUnitsOfOnes(b / 2, j - 1, width - 1);
    }
  }

  lemma {:induction false} Pow2Add(i: nat, j: nat)
    ensures Pow2(i + j) == Pow2(i) * Pow2(j)
  {
    if j > 0 {
      Pow2Add(i, j - 1);
      assert Pow2(i + j) == 2 * Pow2(i + j - 1);
      assert Pow2(i) * Pow2(j) == Pow2(i) * (2 * Pow2(j - 1)) == 2 * (Pow2(i) * Pow2(j - 1));
    }
  }

  lemma {:induction false} Pow2Grows(i: nat, j: nat)
    requires i <= j
    ensures Pow2(i) <= Pow2(j)
  {
    if i < j {
      Pow2Grows(i, j - 1);
    }
  }

  lemma Pow2AddrBits()
    ensures Pow2(AddrBits) == WordModulus
  {
    assert Pow2(8) == 0x100;
    Pow2Add(8, 8);
    assert Pow2(16) == 0x1_0000;
    Pow2Add(16, 16);
    assert Pow2(32) == 0x1_0000_0000;
    Pow2Add(32, 32);
  }

  /** The encoding of the unit tests' pmp_set_napot_addr decodes back to exactly
      [base, base + size) for every naturally aligned power-of-two region of at
      least 8 bytes that fits the address space. */
  lemma NapotRoundTrip(base: Word, size: Word, k: nat)
    requires 3 <= k && size == Pow2(k)
    requires base % size == 0 && base + size <= WordModulus
    ensures NapotRegion(NapotEncode(base, size)) == Range(base, base + size)
  {
    var j := k - 3;
    var q := Pow2(j);
    assert size == 8 * q by {
      assert Pow2(k) == 2 * Pow2(k - 1) == 4 * Pow2(k - 2) == 8 * Pow2(k - 3);
    }
    assert j <= AddrBits by {
      if j > AddrBits {
        Pow2Grows(AddrBits, j);
        Pow2AddrBits();
        assert false;
      }
    }
    LowZerosOfMultiple(base, k);
    var units := base / 4;
    assert base == 4 * units && LowZeros(units, j + 1) by {
      assert base % 2 == 0 && LowZeros(base / 2, k - 1);
      assert (base / 2) % 2 == 0 && LowZeros(base / 2 / 2, k - 2);
      assert base / 2 / 2 == units;
    }
    var field := NapotEncode(base, size);
    assert field == units + q - 1 by {
      assert Sub64(size / 2, 1) == 4 * q - 1;
      assert Add64(base, Sub64(size / 2, 1)) == 4 * (units + q - 1) + 3;
    }
    NapotUnitsOfOnes(units, j, AddrBits);
    assert NapotUnits(field, AddrBits) == (units, 2 * q);
  }

  /** The all-ones field selects every address (the degenerate NAPOT region). */
  lemma NapotAllOnes(a: Word)
    ensures NapotRegion(WordModulus - 1).Contains(a)
  {
    Pow2AddrBits();
    LowZerosOfZero(AddrBits + 1);
    NapotUnitsOfOnes(0, AddrBits, AddrBits);
  }

  /** The region selected by entry i of a register file whose configuration
      bytes are `cfgs` and whose address registers are `addrs`; None for OFF. */
  function EntryRegion(cfgs: seq<Byte>, addrs: seq<Word>, i: nat): Option<Range>
    requires |cfgs| == |addrs| && i < |addrs|
  {
    match ModeOf(cfgs[i])
    case Off => None
    case Tor => Some(Range(if i == 0 then 0 else 4 * (addrs[i - 1] as int), 4 * (addrs[i] as int)))
    case Na4 => Some(Range(4 * (addrs[i] as int), 4 * (addrs[i] as int) + 4))
    case Napot => Some(NapotRegion(addrs[i]))
  }

  predicate EntryMatches(cfgs: seq<Byte>, addrs: seq<Word>, i: nat, a: int)
    requires |cfgs| == |addrs| && i < |addrs|
  {
    var region := EntryRegion(cfgs, addrs, i);
    region.Some? && region.value.Contains(a)
  }

  /** The lowest-index entry at or above `from` that matches `a`. */
  function FirstMatchFrom(cfgs: seq<Byte>, addrs: seq<Word>, a: int, from: nat): (r: Option<nat>)
    requires |cfgs| == |addrs| && from <= |addrs|
    ensures r.Some? ==> from <= r.value < |addrs| && EntryMatches(cfgs, addrs, r.value, a)
    ensures r.Some? ==> forall j :: from <= j < r.value ==> !EntryMatches(cfgs, addrs, j, a)
    ensures r.None? ==> forall j :: from <= j < |addrs| ==> !EntryMatches(cfgs, addrs, j, a)
    decreases |addrs| - from
  {
    if from == |addrs| then None
    else if EntryMatches(cfgs, addrs, from, a) then Some(from)
    else FirstMatchFrom(cfgs, addrs, a, from + 1)
  }

  function FirstMatch(cfgs: seq<Byte>, addrs: seq<Word>, a: int): Option<nat>
    requires |cfgs| == |addrs|
  {
    FirstMatchFrom(cfgs, addrs, a, 0)
  }

  /** pmp_mem_check in supervisor mode: granted exactly when some entry matches. */
  function SupervisorCheck(cfgs: seq<Byte>, addrs: seq<Word>, a: int): Access
    requires |cfgs| == |addrs|
  {
    if FirstMatch(cfgs, addrs, a).Some? then AccessOk else AccessErr
  }

  /** Priority: the scan reports entry i exactly when i matches and no lower entry does. */
  lemma FirstMatchIsLowest(cfgs: seq<Byte>, addrs: seq<Word>, a: int, i: nat)
    requires |cfgs| == |addrs| && i < |addrs|
    ensures FirstMatch(cfgs, addrs, a) == Some(i)
        <==> EntryMatches(cfgs, addrs, i, a) && forall j :: 0 <= j < i ==> !EntryMatches(cfgs, addrs, j, a)
  {
  }

  /** The verdict is OK exactly when at least one entry's region holds the address. */
  lemma SupervisorCheckAnyMatch(cfgs: seq<Byte>, addrs: seq<Word>, a: int)
    requires |cfgs| == |addrs|
    ensures SupervisorCheck(cfgs, addrs, a) == AccessOk
        <==> exists i :: 0 <= i < |addrs| && EntryMatches(cfgs, addrs, i, a)
  {
  }

  /** An OFF entry never matches. */
  lemma OffNeverMatches(cfgs: seq<Byte>, addrs: seq<Word>, i: nat, a: int)
    requires |cfgs| == |addrs| && i < |addrs| && ModeOf(cfgs[i]) == Off
    ensures !EntryMatches(cfgs, addrs, i, a)
  {
  }

  /** When every other entry is OFF, the verdict is decided by entry i alone. */
  lemma SoleEntryDecides(cfgs: seq<Byte>, addrs: seq<Word>, i: nat, a: int)
    requires |cfgs| == |addrs| && i < |addrs|
    requires forall j :: 0 <= j < |addrs| && j != i ==> ModeOf(cfgs[j]) == Off
    ensures SupervisorCheck(cfgs, addrs, a) == AccessOk <==> EntryMatches(cfgs, addrs, i, a)
  {
    SupervisorCheckAnyMatch(cfgs, addrs, a);
  }

  /** NA4: an entry holding base >> 2 for a 4-aligned base selects exactly [base, base + 4). */
  lemma Na4Region(cfgs: seq<Byte>, addrs: seq<Word>, i: nat, base: Word, a: int)
    requires |cfgs| == |addrs| && i < |addrs| && ModeOf(cfgs[i]) == Na4
    requires base % 4 == 0 && addrs[i] == base / 4
    ensures EntryMatches(cfgs, addrs, i, a) <==> base <= a < base + 4
  {
  }

  /** NAPOT: an entry holding the tests' encoding of an aligned power-of-two
      region selects exactly that region. */
  lemma NapotEntryRegion(cfgs: seq<Byte>, addrs: seq<Word>, i: nat, base: Word, size: Word, k: nat, a: int)
    requires |cfgs| == |addrs| && i < |addrs| && ModeOf(cfgs[i]) == Napot
    requires 3 <= k && size == Pow2(k) && base % size == 0 && base + size <= WordModulus
    requires addrs[i] == NapotEncode(base, size)
    ensures EntryMatches(cfgs, addrs, i, a) <==> base <= a < base + size
  {
    NapotRoundTrip(base, size, k);
  }

  /** TOR on entry 0 has lower bound 0: it selects [0, addrs[0] << 2). */
  lemma TorFirstEntry(cfgs: seq<Byte>, addrs: seq<Word>, a: nat)
    requires |cfgs| == |addrs| && 0 < |addrs| && ModeOf(cfgs[0]) == Tor
    ensures EntryMatches(cfgs, addrs, 0, a) <==> a < 4 * (addrs[0] as int)
  {
  }

  /** TOR on entry k+1 takes its lower bound from addrs[k], whatever entry k's
      own mode, so the pair selects [addrs[k] << 2, addrs[k+1] << 2) at any k. */
  lemma TorChained(cfgs: seq<Byte>, addrs: seq<Word>, k: nat, a: int)
    requires |cfgs| == |addrs| && k + 1 < |addrs| && ModeOf(cfgs[k + 1]) == Tor
    ensures EntryMatches(cfgs, addrs, k + 1, a) <==> 4 * (addrs[k] as int) <= a < 4 * (addrs[k + 1] as int)
  {
  }
}
