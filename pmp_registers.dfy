/** The PMP register store (pmp_td) with the byte and word updates of the unit
    tests' helpers, the CSR read/write operations that gate writes on the L
    bit, and pmp_mem_check's scan for a supervisor-mode access. */
module PmpRegisters {
  import opened Words
  import opened PmpConfig
  import opened PmpMatch

  /** Number of PMP entries, and of 64-bit configuration registers holding their bytes. */
  const Entries: nat := 16
  const CfgWords: nat := 2

  /** The configuration bytes and address registers of a zeroed store. */
  const ZeroCfgs: seq<Byte> := seq(Entries, _ => 0)
  const ZeroAddrs: seq<Word> := seq(Entries, _ => 0)

  /** The sixteen configuration bytes after a machine-mode write of `value` to
      register g: the bytes of group g merged under their locks with the
      bytes of `value`, the other group as it was. */
  function WriteCfgBytes(cfgs: seq<Byte>, g: nat, value: Word): (r: seq<Byte>)
    requires |cfgs| == Entries && g < CfgWords
    ensures |r| == Entries
  {
    cfgs[..g * WordBytes]
      + LockedMerge(cfgs[g * WordBytes .. (g + 1) * WordBytes], BytesOf(value))
      + cfgs[(g + 1) * WordBytes ..]
  }

  /** Entry by entry: a byte outside group g, or locked, keeps its value; any
      other takes the byte of `value` at its position in the register. */
  lemma WriteCfgBytesAt(cfgs: seq<Byte>, g: nat, value: Word, i: nat)
    requires |cfgs| == Entries && g < CfgWords && i < Entries
    ensures WriteCfgBytes(cfgs, g, value)[i] ==
              if i / WordBytes != g || Locked(cfgs[i]) then cfgs[i] else ByteOf(value, i % WordBytes)
  {
    var lo, hi := g * WordBytes, (g + 1) * WordBytes;
    var left, mid := cfgs[..lo], LockedMerge(cfgs[lo..hi], BytesOf(value));
    var r := WriteCfgBytes(cfgs, g, value);
    if i < lo {
      assert r[i] == left[i];
      assert i / WordBytes < g;
    } else if i < hi {
      assert r[i] == mid[i - lo];
      assert i / WordBytes == g && i % WordBytes == i - lo;
    } else {
      assert r[i] == cfgs[i];
      assert i / WordBytes > g;
    }
  }

  /** Bytes that follow the lock rule entry by entry are WriteCfgBytes. */
  lemma WriteCfgBytesPointwise(cfgs: seq<Byte>, g: nat, value: Word, r: seq<Byte>)
    requires |cfgs| == |r| == Entries && g < CfgWords
    requires forall i :: 0 <= i < Entries ==>
               r[i] == if g * WordBytes <= i < (g + 1) * WordBytes && !Locked(cfgs[i])
                       then ByteOf(value, i - g * WordBytes) else cfgs[i]
    ensures r == WriteCfgBytes(cfgs, g, value)
  {
    forall i | 0 <= i < Entries
      ensures r[i] == WriteCfgBytes(cfgs, g, value)[i]
    {
      WriteCfgBytesAt(cfgs, g, value, i);
      if g * WordBytes <= i < (g + 1) * WordBytes {
        assert i / WordBytes == g && i % WordBytes == i - g * WordBytes;
      } else {
        assert i / WordBytes != g;
      }
    }
  }

  /** Read as a register, group g after the write is WriteCfgWord of group g before it. */
  lemma WriteCfgBytesWord(cfgs: seq<Byte>, g: nat, value: Word)
    requires |cfgs| == Entries && g < CfgWords
    ensures WordOf(WriteCfgBytes(cfgs, g, value)[g * WordBytes .. (g + 1) * WordBytes])
            == WriteCfgWord(WordOf(cfgs[g * WordBytes .. (g + 1) * WordBytes]), value)
  {
    var lo, hi := g * WordBytes, (g + 1) * WordBytes;
    var merged := LockedMerge(cfgs[lo..hi], BytesOf(value));
    assert WriteCfgBytes(cfgs, g, value)[lo..hi] == merged;
    WriteCfgWordOfBytes(cfgs[lo..hi], value, merged);
  }

  /** pmp_td: the packed configuration registers and one address register per
      entry. The configuration registers are held as their sixteen bytes in
      memory order, which is how the helpers and the lock checks address
      them: entry i's byte is byte i % 8 of register i / 8, and CfgWord packs
      a register back from its eight bytes. */
  class Pmp {
    const cfg: array<Byte>
    const addr: array<Word>

    ghost predicate Valid()
      reads this
    {
      cfg.Length == Entries && addr.Length == Entries
    }

    /** Configuration register g (cfg[g] as a 64-bit word): its bytes are
        those of entries 8g .. 8g+7, least significant first. */
    function CfgWord(g: nat): (w: Word)
      reads this, cfg
      requires Valid() && g < CfgWords
      ensures BytesOf(w) == cfg[g * WordBytes .. (g + 1) * WordBytes]
      ensures forall k :: 0 <= k < WordBytes ==> ByteOf(w, k) == cfg[g * WordBytes + k]
    {
      WordOf(cfg[g * WordBytes .. (g + 1) * WordBytes])
    }

    /** A zeroed store (setUp's memset): every entry OFF, unlocked, with address 0. */
    constructor ()
      ensures Valid() && fresh(cfg) && fresh(addr)
      ensures cfg[..] == ZeroCfgs && addr[..] == ZeroAddrs
    {
      cfg := new Byte[Entries](_ => 0);
      addr := new Word[Entries](_ => 0);
    }

    /** pmp_set_cfg_l_flag: SET_BIT of L in entry i's byte. */
    method SetLFlag(i: nat)
      requires Valid() && i < Entries
      modifies cfg
      ensures cfg[..] == old(cfg[..])[i := SetFlag(old(cfg[i]), L)]
    {
      cfg[i] := SetFlag(cfg[i], L);
    }

    /** pmp_set_cfg_x_flag. */
    method SetXFlag(i: nat)
      requires Valid() && i < Entries
      modifies cfg
      ensures cfg[..] == old(cfg[..])[i := SetFlag(old(cfg[i]), X)]
    {
      cfg[i] := SetFlag(cfg[i], X);
    }

    /** pmp_set_cfg_w_flag. */
    method SetWFlag(i: nat)
      requires Valid() && i < Entries
      modifies cfg
      ensures cfg[..] == old(cfg[..])[i := SetFlag(old(cfg[i]), W)]
    {
      cfg[i] := SetFlag(cfg[i], W);
    }

    /** pmp_set_cfg_r_flag. */
    method SetRFlag(i: nat)
      requires Valid() && i < Entries
      modifies cfg
      ensures cfg[..] == old(cfg[..])[i := SetFlag(old(cfg[i]), R)]
    {
      cfg[i] := SetFlag(cfg[i], R);
    }

    /** pmp_set_cfg_a_mode: ORs the mode into field A of entry i. */
    method SetAMode(i: nat, mode: AddrMode)
      requires Valid() && i < Entries
      modifies cfg
      ensures cfg[..] == old(cfg[..])[i := OrMode(old(cfg[i]), mode)]
    {
      cfg[i] := OrMode(cfg[i], mode);
    }

    /** pmp_set_napot_addr. */
    method SetNapotAddr(i: nat, base: Word, size: Word)
      requires Valid() && i < Entries
      modifies addr
      ensures addr[..] == old(addr[..])[i := NapotEncode(base, size)]
    {
      addr[i] := NapotEncode(base, size);
    }

    /** pmp_set_na4_tor_addr: the address register holds base >> 2. */
    method SetNa4TorAddr(i: nat, base: Word)
      requires Valid() && i < Entries
      modifies addr
      ensures addr[..] == old(addr[..])[i := base / 4]
    {
      addr[i] := base / 4;
    }

    /** pmp_write_csr_cfg in machine mode: each of the eight entries of group g
        whose L bit is set keeps its byte, every other one takes the byte of
        `value` at the same position, and the other group is untouched. As a
        register, cfg[g] becomes the lock-gated merge of its old value and `value`. */
    method WriteCsrCfg(g: nat, value: Word)
      requires Valid() && g < CfgWords
      modifies cfg
      ensures cfg[..] == WriteCfgBytes(old(cfg[..]), g, value)
      ensures CfgWord(g) == WriteCfgWord(old(CfgWord(g)), value)
    {
      ghost var before := cfg[..];
      ghost var lo := g * WordBytes;
      var k := 0;
      while k < WordBytes
        invariant 0 <= k <= WordBytes
        invariant forall i :: 0 <= i < Entries ==>
                    cfg[i] == if lo <= i < lo + k && !Locked(before[i]) then ByteOf(value, i - lo) else before[i]
      {
        var i := g * WordBytes + k;
        if !Locked(cfg[i]) {
          cfg[i] := ByteOf(value, k);
        }
        k := k + 1;
      }
      WriteCfgBytesPointwise(before, g, value, cfg[..]);
      WriteCfgBytesWord(before, g, value);
    }

    /** pmp_read_csr_cfg: register g as stored, whatever the locks: the word
        whose bytes, least significant first, are entries 8g .. 8g+7. */
    method ReadCsrCfg(g: nat) returns (v: Word)
      requires Valid() && g < CfgWords
      ensures v == CfgWord(g)
      ensures BytesOf(v) == cfg[g * WordBytes .. (g + 1) * WordBytes]
    {
      v := CfgWord(g);
    }

    /** pmp_write_csr_addr in machine mode: discarded when the entry is locked,
        stored verbatim otherwise. */
    method WriteCsrAddr(i: nat, value: Word)
      requires Valid() && i < Entries
      modifies addr
      ensures Locked(cfg[i]) ==> addr[..] == old(addr[..])
      ensures !Locked(cfg[i]) ==> addr[..] == old(addr[..])[i := value]
    {
      if !Locked(cfg[i]) {
        addr[i] := value;
      }
    }

    /** pmp_read_csr_addr: the stored address register, whatever the lock. */
    method ReadCsrAddr(i: nat) returns (v: Word)
      requires Valid() && i < Entries
      ensures v == addr[i]
    {
      v := addr[i];
    }

    /** pmp_mem_check for a supervisor-mode access to byte a: entries are
        scanned from 0 upward and the first whose region holds a grants it;
        with no such entry the access is refused. */
    method SupervisorMemCheck(a: Word) returns (v: Access)
      requires Valid()
      ensures v == SupervisorCheck(cfg[..], addr[..], a)
    {
      var i := 0;
      while i < Entries
        invariant 0 <= i <= Entries
        invariant forall j :: 0 <= j < i ==> !EntryMatches(cfg[..], addr[..], j, a)
      {
        var hit := false;
        match ModeOf(cfg[i]) {
          case Off =>
          case Tor =>
            var lo := if i == 0 then 0 else 4 * (addr[i - 1] as int);
            hit := lo <= a < 4 * (addr[i] as int);
          case Na4 =>
            hit := 4 * (addr[i] as int) <= a < 4 * (addr[i] as int) + 4;
          case Napot =>
            hit := NapotRegion(addr[i]).Contains(a);
        }
        assert hit == EntryMatches(cfg[..], addr[..], i, a);
        if hit {
          return AccessOk;
        }
        i := i + 1;
      }
      return AccessErr;
    }
  }
}
