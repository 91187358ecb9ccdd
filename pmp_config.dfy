/** The 8-bit PMP configuration field of one entry (pmpNcfg) as a bit-field
    record, with its encoding to and from the stored byte, the bit updates the
    unit tests' helpers make, and the lock-gated merge that a write of a whole
    packed configuration register performs. */
module PmpConfig {
  import opened Words

  /** Address-matching mode, field A (pmp_addr_matching). */
  datatype AddrMode = Off | Tor | Na4 | Napot

  function ModeCode(m: AddrMode): (c: nat)
    ensures c < 4
  {
    match m
    case Off => 0
    case Tor => 1
    case Na4 => 2
    case Napot => 3
  }

  function ModeOfCode(c: nat): (m: AddrMode)
    requires c < 4
    ensures ModeCode(m) == c
  {
    if c == 0 then Off else if c == 1 then Tor else if c == 2 then Na4 else Napot
  }

  /** The 2-bit value of the reserved bits 5 and 6. */
  type Reserved = x: nat | x < 4

  /** One configuration byte as its fields: R is bit 0, W bit 1, X bit 2,
      A bits 3-4 (PMP_CFG_A_BIT_OFFS = 3) and L bit 7; `reserved` holds bits
      5 and 6, which are never interpreted. */
  datatype Cfg = Cfg(r: bool, w: bool, x: bool, a: AddrMode, reserved: Reserved, l: bool)

  function BitValue(b: bool): nat
  {
    if b then 1 else 0
  }

  function EncodeCfg(c: Cfg): (b: Byte)
  {
    BitValue(c.r) + 2 * BitValue(c.w) + 4 * BitValue(c.x) + 8 * ModeCode(c.a)
      + 32 * c.reserved + 128 * BitValue(c.l)
  }

  /** Splits b into its fields, one bit position at a time (bit 0 first). */
  function DecodeCfg(b: Byte): (c: Cfg)
  {
    var b1 := b / 2;
    var b2 := b1 / 2;
    var b3 := b2 / 2;
    var b5 := b3 / 4;
    Cfg(b % 2 == 1, b1 % 2 == 1, b2 % 2 == 1, ModeOfCode(b3 % 4), b5 % 4, b5 / 4 == 1)
  }

  lemma DecodeEncode(c: Cfg)
    ensures DecodeCfg(EncodeCfg(c)) == c
  {
    var b := EncodeCfg(c);
    var b5 := c.reserved + 4 * BitValue(c.l);
    var b3 := ModeCode(c.a) + 4 * b5;
    var b2 := BitValue(c.x) + 2 * b3;
    var b1 := BitValue(c.w) + 2 * b2;
    assert b == BitValue(c.r) + 2 * b1;
    assert b / 2 == b1 && b % 2 == BitValue(c.r);
    assert b1 / 2 == b2 && b1 % 2 == BitValue(c.w);
    assert b2 / 2 == b3 && b2 % 2 == BitValue(c.x);
    assert b3 / 4 == b5 && b3 % 4 == ModeCode(c.a);
    assert b5 / 4 == BitValue(c.l) && b5 % 4 == c.reserved;
  }

  lemma EncodeDecode(b: Byte)
    ensures EncodeCfg(DecodeCfg(b)) == b
  {
    var b1 := b / 2;
    var b2 := b1 / 2;
    var b3 := b2 / 2;
    var b5 := b3 / 4;
    assert b5 < 8 && b5 / 4 <= 1;
    var c := DecodeCfg(b);
    assert BitValue(c.r) == b % 2;
    assert BitValue(c.w) == b1 % 2;
    assert BitValue(c.x) == b2 % 2;
    assert ModeCode(c.a) == b3 % 4;
    assert BitValue(c.l) == b5 / 4;
    assert b == b % 2 + 2 * (b1 % 2) + 4 * (b2 % 2) + 8 * (b3 % 4) + 32 * (b5 % 4) + 128 * (b5 / 4);
  }

  /** Bit L of the byte, which is its top bit. */
  predicate Locked(b: Byte)
  {
    b >= 0x80
  }

  lemma LockedIsL(b: Byte)
    ensures Locked(b) <==> DecodeCfg(b).l
  {
  }

  /** Field A of the byte, bits 3 and 4. */
  function ModeOf(b: Byte): AddrMode
  {
    ModeOfCode(b / 8 % 4)
  }

  lemma ModeOfIsA(b: Byte)
    ensures ModeOf(b) == DecodeCfg(b).a
  {
    assert b / 2 / 2 / 2 == b / 8;
  }

  /** The four single-bit flags the tests' helpers set with SET_BIT. */
  datatype Flag = R | W | X | L

  /** The value of the flag's bit: 1 << 0, 1 << 1, 1 << 2 and 1 << 7. */
  function FlagMask(f: Flag): (p: nat)
    ensures p >= 1
  {
    match f
    case R => 1
    case W => 2
    case X => 4
    case L => 128
  }

  function WithFlag(c: Cfg, f: Flag): Cfg
  {
    match f
    case R => c.(r := true)
    case W => c.(w := true)
    case X => c.(x := true)
    case L => c.(l := true)
  }

  function FlagOf(c: Cfg, f: Flag): bool
  {
    match f
    case R => c.r
    case W => c.w
    case X => c.x
    case L => c.l
  }

  /** Whether the flag's bit is set in b. */
  predicate HasFlag(b: Byte, f: Flag)
  {
    b / FlagMask(f) % 2 == 1
  }

  lemma HasFlagIsFlagOf(b: Byte, f: Flag)
    ensures HasFlag(b, f) <==> FlagOf(DecodeCfg(b), f)
  {
    assert b / 2 / 2 == b / 4;
    assert b / 2 / 2 / 2 / 4 / 4 == b / 128;
  }

  /** SET_BIT on the flag's bit: OR-ing in one bit leaves b alone if the bit is
      already set and adds its value otherwise. */
  function SetFlag(b: Byte, f: Flag): Byte
  {
    if HasFlag(b, f) then b else SetFlagBound(b, f); b + FlagMask(f)
  }

  /** A clear bit leaves room for its value below 0x100. */
  lemma SetFlagBound(b: Byte, f: Flag)
    requires !HasFlag(b, f)
    ensures b + FlagMask(f) < 0x100
  {
  }

  /** SET_BIT sets the flag, and a byte that already has it is left alone. */
  lemma SetFlagSets(b: Byte, f: Flag)
    ensures HasFlag(SetFlag(b, f), f)
    ensures HasFlag(b, f) ==> SetFlag(b, f) == b
  {
    var p := FlagMask(f);
    assert (b + p) / p == b / p + 1;
  }

  /** Decoded, SET_BIT sets the flag and changes no other field of the entry. */
  lemma SetFlagDecodes(b: Byte, f: Flag)
    ensures DecodeCfg(SetFlag(b, f)) == WithFlag(DecodeCfg(b), f)
  {
    var c := DecodeCfg(b);
    HasFlagIsFlagOf(b, f);
    if !FlagOf(c, f) {
      EncodeDecode(b);
      DecodeEncode(WithFlag(c, f));
      EncodeWithFlag(c, f);
    }
  }

  /** Setting a clear flag of a record adds the flag's bit value to its encoding. */
  lemma EncodeWithFlag(c: Cfg, f: Flag)
    requires !FlagOf(c, f)
    ensures EncodeCfg(WithFlag(c, f)) == EncodeCfg(c) + FlagMask(f)
  {
  }

  /** Bitwise OR of two 2-bit values. */
  function Or2(p: nat, q: nat): (r: nat)
    requires p < 4 && q < 4
    ensures r < 4
  {
    (if p % 2 == 1 || q % 2 == 1 then 1 else 0) + (if p / 2 == 1 || q / 2 == 1 then 2 else 0)
  }

  /** b |= (mode << 3): field A moves from its old code to the OR of that
      code and the mode's; the other bits stay. */
  function OrMode(b: Byte, m: AddrMode): Byte
  {
    b + 8 * (Or2(b / 8 % 4, ModeCode(m)) - b / 8 % 4)
  }

  /** The OR reaches field A: its new code is the OR of the old one and the mode's. */
  lemma OrModeMode(b: Byte, m: AddrMode)
    ensures ModeCode(ModeOf(OrMode(b, m))) == Or2(ModeCode(ModeOf(b)), ModeCode(m))
  {
    var old_code := b / 8 % 4;
    var new_code := Or2(old_code, ModeCode(m));
    assert b / 8 == 4 * (b / 32) + old_code;
    assert OrMode(b, m) / 8 == 4 * (b / 32) + new_code;
  }

  /** Decoded, the OR changes field A alone. */
  lemma OrModeDecodes(b: Byte, m: AddrMode)
    ensures DecodeCfg(OrMode(b, m)) == DecodeCfg(b).(a := ModeOf(OrMode(b, m)))
  {
    var c := DecodeCfg(b);
    EncodeDecode(b);
    ModeOfIsA(b);
    assert b / 8 % 4 == ModeCode(c.a);
    var c' := c.(a := ModeOfCode(Or2(ModeCode(c.a), ModeCode(m))));
    assert OrMode(b, m) == EncodeCfg(c');
    DecodeEncode(c');
    ModeOfIsA(OrMode(b, m));
  }

  /** OR-ing OFF (code 0) changes nothing; OR-ing into an OFF field sets it to the mode. */
  lemma OrModeOff(b: Byte, m: AddrMode)
    ensures m == Off ==> OrMode(b, m) == b
    ensures ModeOf(b) == Off ==> ModeOf(OrMode(b, m)) == m
  {
    OrModeMode(b, m);
    var old_code := b / 8 % 4;
    assert Or2(old_code, 0) == old_code;
    assert Or2(0, ModeCode(m)) == ModeCode(m);
  }

  /** The byte values the unit tests build from a zeroed entry. A zero byte is
      an unlocked entry with every flag clear and A = OFF. */
  lemma ZeroCfgByte()
    ensures DecodeCfg(0) == Cfg(false, false, false, Off, 0, false)
    ensures ModeOf(0) == Off && !Locked(0)
  {
    DecodeEncode(Cfg(false, false, false, Off, 0, false));
  }

  /** A = NA4 alone is 0x10. */
  lemma Na4CfgByte()
    ensures OrMode(0, Na4) == 0x10 && ModeOf(0x10) == Na4 && !Locked(0x10)
  {
  }

  /** A = NA4 with X set is 0x14. */
  lemma Na4ExecCfgByte()
    ensures SetFlag(OrMode(0, Na4), X) == 0x14
  {
    Na4CfgByte();
  }

  /** L alone is 0x80, and it reads back as locked. */
  lemma LockCfgByte()
    ensures SetFlag(0, L) == 0x80 && Locked(0x80)
  {
  }

  /** A = TOR alone is 0x08. */
  lemma TorCfgByte()
    ensures OrMode(0, Tor) == 0x08 && ModeOf(0x08) == Tor && !Locked(0x08)
  {
  }

  /** A = NAPOT alone is 0x18. */
  lemma NapotCfgByte()
    ensures OrMode(0, Napot) == 0x18 && ModeOf(0x18) == Napot && !Locked(0x18)
  {
  }

  /** pmp_write_csr_cfg on one group of bytes: a byte whose L bit is set keeps
      its value, every other byte takes the incoming one. */
  function LockedMerge(cur: seq<Byte>, incoming: seq<Byte>): (r: seq<Byte>)
    requires |cur| == |incoming|
    ensures |r| == |cur|
    ensures forall k :: 0 <= k < |r| && Locked(cur[k]) ==> r[k] == cur[k]
    ensures forall k :: 0 <= k < |r| && !Locked(cur[k]) ==> r[k] == incoming[k]
  {
    if cur == [] then []
    else [if Locked(cur[0]) then cur[0] else incoming[0]] + LockedMerge(cur[1..], incoming[1..])
  }

  /** The packed configuration register after a machine-mode write of `value` over `cur`. */
  function WriteCfgWord(cur: Word, value: Word): (r: Word)
    ensures forall k :: 0 <= k < WordBytes && Locked(ByteOf(cur, k)) ==> ByteOf(r, k) == ByteOf(cur, k)
    ensures forall k :: 0 <= k < WordBytes && !Locked(ByteOf(cur, k)) ==> ByteOf(r, k) == ByteOf(value, k)
  {
    WordOf(LockedMerge(BytesOf(cur), BytesOf(value)))
  }

  /** Bytes that follow the lock rule byte by byte, repacked, are
      WriteCfgWord of the register. */
  lemma WriteCfgWordOfBytes(cur: seq<Byte>, value: Word, r: seq<Byte>)
    requires |cur| == |r| == WordBytes
    requires forall k :: 0 <= k < WordBytes ==> r[k] == if Locked(cur[k]) then cur[k] else ByteOf(value, k)
    ensures WordOf(r) == WriteCfgWord(WordOf(cur), value)
  {
    var merged := WriteCfgWord(WordOf(cur), value);
    forall k | 0 <= k < WordBytes
      ensures BytesOf(WordOf(r))[k] == BytesOf(merged)[k]
    {
      assert ByteOf(WordOf(cur), k) == cur[k];
    }
    BytesOfInjective(WordOf(r), merged);
  }

  /** With no entry of the group locked, the register is replaced by the written value exactly. */
  lemma WriteCfgUnlocked(cur: Word, value: Word)
    requires forall k :: 0 <= k < WordBytes ==> !Locked(ByteOf(cur, k))
    ensures WriteCfgWord(cur, value) == value
  {
    var r := WriteCfgWord(cur, value);
    forall k | 0 <= k < WordBytes
      ensures BytesOf(r)[k] == BytesOf(value)[k]
    {
      assert ByteOf(r, k) == ByteOf(value, k);
    }
    BytesOfInjective(r, value);
  }

  /** A lock, once set, survives every further write, and so does the locked byte. */
  lemma WriteCfgKeepsLocks(cur: Word, value: Word, k: nat)
    requires k < WordBytes && Locked(ByteOf(cur, k))
    ensures Locked(ByteOf(WriteCfgWord(cur, value), k))
    ensures ByteOf(WriteCfgWord(cur, value), k) == ByteOf(cur, k)
  {
  }

  /** Writing the same value twice has the effect of writing it once. */
  lemma WriteCfgIdempotent(cur: Word, value: Word)
    ensures WriteCfgWord(WriteCfgWord(cur, value), value) == WriteCfgWord(cur, value)
  {
    var once := WriteCfgWord(cur, value);
    var twice := WriteCfgWord(once, value);
    forall k | 0 <= k < WordBytes
      ensures BytesOf(twice)[k] == BytesOf(once)[k]
    {
      assert ByteOf(twice, k) == ByteOf(once, k);
    }
    BytesOfInjective(twice, once);
  }
}
