/** The seven scenarios of the PMP unit tests, each as a client of the store.
    Every test starts from freshly zeroed stores (setUp), and each assertion
    of the test becomes a postcondition on the value it inspects. The
    memory-check tests are split as the tests themselves are: the store the
    test configures, the verdict that configuration gives every address, and
    the checks at the addresses the test probes. */
module PmpUnitTests {
  import opened Words
  import opened PmpConfig
  import opened PmpMatch
  import opened PmpRegisters

  /** The store test_PMP_lock_bit builds with the helpers: entry 11 NA4 with X set. */
  method LockBitTemplate() returns (tmp: Pmp)
    ensures fresh(tmp.cfg) && fresh(tmp.addr) && tmp.Valid()
    ensures tmp.cfg[..] == ZeroCfgs[11 := 0x14]
  {
    Na4ExecCfgByte();
    tmp := new Pmp();
    assert tmp.cfg[11] == 0;
    tmp.SetAMode(11, Na4);
    assert tmp.cfg[11] == OrMode(0, Na4);
    tmp.SetXFlag(11);
  }

  /** test_PMP_lock_bit: a locked configuration byte and its address register
      ignore machine-mode CSR writes; an unlocked neighbour takes them. */
  method LockBit() returns (tmpCfg11: Byte, liveCfg11: Byte, liveAddr11: Word, liveAddr10: Word)
    ensures tmpCfg11 == 0x14
    ensures liveCfg11 == 0x80
    ensures liveAddr11 == 0x00
    ensures liveAddr10 == 0x1234
  {
    ZeroCfgByte();
    LockCfgByte();
    var tmp := LockBitTemplate();
    tmpCfg11 := tmp.cfg[11];

    var live := new Pmp();
    assert live.cfg[11] == 0;
    live.SetLFlag(11);
    ghost var before := live.cfg[..];
    var word := tmp.CfgWord(1);
    live.WriteCsrCfg(1, word);
    WriteCfgBytesAt(before, 1, word, 11);
    liveCfg11 := live.cfg[11];

    live.WriteCsrAddr(11, 0x1234);
    liveAddr11 := live.addr[11];
    WriteCfgBytesAt(before, 1, word, 10);
    assert live.cfg[10] == ByteOf(word, 2) == 0;
    live.WriteCsrAddr(10, 0x1234);
    liveAddr10 := live.addr[10];
  }

  /** When entries other than i are OFF, every address gets the verdict of entry i. */
  lemma SoleEntryVerdicts(cfgs: seq<Byte>, addrs: seq<Word>, i: nat)
    requires |cfgs| == |addrs| && i < |addrs|
    requires forall j :: 0 <= j < |addrs| && j != i ==> ModeOf(cfgs[j]) == Off
    ensures forall a: int :: SupervisorCheck(cfgs, addrs, a) == (if EntryMatches(cfgs, addrs, i, a) then AccessOk else AccessErr)
  {
    forall a: int {
      SoleEntryDecides(cfgs, addrs, i, a);
    }
  }

  /** A store whose configuration bytes are those of a zeroed store except at
      entry i has every other entry OFF. */
  lemma OthersOff(cfgs: seq<Byte>, i: nat)
    requires |cfgs| == Entries && i < Entries && cfgs == ZeroCfgs[i := cfgs[i]]
    ensures forall j :: 0 <= j < Entries && j != i ==> ModeOf(cfgs[j]) == Off
  {
    ZeroCfgByte();
    forall j | 0 <= j < Entries && j != i
      ensures ModeOf(cfgs[j]) == Off
    {
      assert cfgs[j] == ZeroCfgs[j];
    }
  }

  /** The store test_PMP_napot_memcheck configures: entry 0 NAPOT over the
      0x1000 bytes at 0x40000000. */
  method NapotStore() returns (tmp: Pmp)
    ensures fresh(tmp) && tmp.Valid()
    ensures tmp.cfg[..] == ZeroCfgs[0 := 0x18]
    ensures tmp.addr[..] == ZeroAddrs[0 := 0x1000_01FF]
  {
    NapotCfgByte();
    tmp := new Pmp();
    tmp.SetAMode(0, Napot);
    tmp.SetNapotAddr(0, 0x4000_0000, 0x1000);
    assert tmp.addr[0] == 0x1000_01FF by {
      assert Sub64(0x800, 1) == 0x7FF;
      assert Add64(0x4000_0000, 0x7FF) == 0x4000_07FF;
    }
  }

  /** Under that configuration an address is granted exactly when it lies in
      [0x40000000, 0x40001000). */
  lemma NapotVerdicts(cfgs: seq<Byte>, addrs: seq<Word>)
    requires cfgs == ZeroCfgs[0 := 0x18] && addrs == ZeroAddrs[0 := 0x1000_01FF]
    ensures forall a: int :: SupervisorCheck(cfgs, addrs, a) ==
              if 0x4000_0000 <= a < 0x4000_1000 then AccessOk else AccessErr
  {
    assert ModeOf(cfgs[0]) == Napot;
    assert addrs[0] == NapotEncode(0x4000_0000, 0x1000) by {
      assert Sub64(0x800, 1) == 0x7FF;
      assert Add64(0x4000_0000, 0x7FF) == 0x4000_07FF;
    }
    assert Pow2(12) == 0x1000;
    OthersOff(cfgs, 0);
    forall a: int
      ensures EntryMatches(cfgs, addrs, 0, a) <==> 0x4000_0000 <= a < 0x4000_1000
    {
      NapotEntryRegion(cfgs, addrs, 0, 0x4000_0000, 0x1000, 12, a);
    }
    SoleEntryVerdicts(cfgs, addrs, 0);
  }

  /** test_PMP_napot_memcheck: the 0x1000-byte NAPOT region at 0x40000000. */
  method NapotMemcheck() returns (field: Word, atBase: Access, atLast: Access, below: Access, above: Access)
    ensures field == 0x1000_01FF
    ensures atBase == AccessOk && atLast == AccessOk
    ensures below == AccessErr && above == AccessErr
  {
    var tmp := NapotStore();
    NapotVerdicts(tmp.cfg[..], tmp.addr[..]);
    field := tmp.addr[0];
    atBase := tmp.SupervisorMemCheck(0x4000_0000);
    atLast := tmp.SupervisorMemCheck(0x4000_0fff);
    below := tmp.SupervisorMemCheck(0x3fff_ffff);
    above := tmp.SupervisorMemCheck(0x4000_1000);
  }

  /** The store test_PMP_na4_memcheck configures: entry 0 NA4 at 0x40000000. */
  method Na4Store() returns (tmp: Pmp)
    ensures fresh(tmp) && tmp.Valid()
    ensures tmp.cfg[..] == ZeroCfgs[0 := 0x10]
    ensures tmp.addr[..] == ZeroAddrs[0 := 0x1000_0000]
  {
    Na4CfgByte();
    tmp := new Pmp();
    tmp.SetAMode(0, Na4);
    tmp.SetNa4TorAddr(0, 0x4000_0000);
  }

  /** Under that configuration an address is granted exactly when it lies in
      [0x40000000, 0x40000004). */
  lemma Na4Verdicts(cfgs: seq<Byte>, addrs: seq<Word>)
    requires cfgs == ZeroCfgs[0 := 0x10] && addrs == ZeroAddrs[0 := 0x1000_0000]
    ensures forall a: int :: SupervisorCheck(cfgs, addrs, a) ==
              if 0x4000_0000 <= a < 0x4000_0004 then AccessOk else AccessErr
  {
    assert ModeOf(cfgs[0]) == Na4;
    OthersOff(cfgs, 0);
    forall a: int
      ensures EntryMatches(cfgs, addrs, 0, a) <==> 0x4000_0000 <= a < 0x4000_0004
    {
      Na4Region(cfgs, addrs, 0, 0x4000_0000, a);
    }
    SoleEntryVerdicts(cfgs, addrs, 0);
  }

  /** test_PMP_na4_memcheck: the 4-byte NA4 region at 0x40000000. */
  method Na4Memcheck() returns (atBase: Access, atLast: Access, below: Access, above: Access)
    ensures atBase == AccessOk && atLast == AccessOk
    ensures below == AccessErr && above == AccessErr
  {
    var tmp := Na4Store();
    Na4Verdicts(tmp.cfg[..], tmp.addr[..]);
    atBase := tmp.SupervisorMemCheck(0x4000_0000);
    atLast := tmp.SupervisorMemCheck(0x4000_0003);
    below := tmp.SupervisorMemCheck(0x3fff_ffff);
    above := tmp.SupervisorMemCheck(0x4000_0004);
  }

  /** The store test_PMP_tor_first_entry_memcheck configures: entry 0 TOR
      with top 0x80087000. */
  method TorFirstStore() returns (tmp: Pmp)
    ensures fresh(tmp) && tmp.Valid()
    ensures tmp.cfg[..] == ZeroCfgs[0 := 0x08]
    ensures tmp.addr[..] == ZeroAddrs[0 := 0x2002_1C00]
  {
    TorCfgByte();
    assert OrMode(0, Off) == 0;
    tmp := new Pmp();
    tmp.SetAMode(0, Tor);
    tmp.SetNa4TorAddr(0, 0x8008_7000);
  }

  /** Under that configuration an address is granted exactly when it lies
      below 0x80087000: entry 0's lower bound is address 0. */
  lemma TorFirstVerdicts(cfgs: seq<Byte>, addrs: seq<Word>)
    requires cfgs == ZeroCfgs[0 := 0x08] && addrs == ZeroAddrs[0 := 0x2002_1C00]
    ensures forall a: nat :: SupervisorCheck(cfgs, addrs, a) ==
              if a < 0x8008_7000 then AccessOk else AccessErr
  {
    assert ModeOf(cfgs[0]) == Tor;
    OthersOff(cfgs, 0);
    forall a: nat
      ensures EntryMatches(cfgs, addrs, 0, a) <==> a < 0x8008_7000
    {
      TorFirstEntry(cfgs, addrs, a);
    }
    SoleEntryVerdicts(cfgs, addrs, 0);
  }

  /** test_PMP_tor_first_entry_memcheck: TOR on entry 0 covers [0, 0x80087000). */
  method TorFirstEntryMemcheck() returns (first: Access, last: Access, middle: Access, high: Access, top: Access)
    ensures first == AccessOk && last == AccessOk && middle == AccessOk && high == AccessOk
    ensures top == AccessErr
  {
    var tmp := TorFirstStore();
    TorFirstVerdicts(tmp.cfg[..], tmp.addr[..]);
    first := tmp.SupervisorMemCheck(0x0);
    last := tmp.SupervisorMemCheck(0x8008_6FFF);
    middle := tmp.SupervisorMemCheck(0x4000_0000);
    high := tmp.SupervisorMemCheck(0x8008_0000);
    top := tmp.SupervisorMemCheck(0x8008_7000);
  }

  /** The store test_PMP_tor_memcheck (k = 0), test_PMP_tor_higher_cfg_memcheck
      and test_PMP_read_write_csr (k = 5) configure: entry k OFF holding
      0x40000000 >> 2, entry k+1 TOR holding 0x80000000 >> 2. Setting A = OFF
      on a zeroed entry leaves its byte 0. */
  method TorPairStore(k: nat) returns (tmp: Pmp)
    requires k + 1 < Entries
    ensures fresh(tmp) && tmp.Valid()
    ensures tmp.cfg[..] == ZeroCfgs[k + 1 := 0x08]
    ensures tmp.addr[..] == ZeroAddrs[k := 0x1000_0000][k + 1 := 0x2000_0000]
  {
    tmp := TorPairModes(k);
    tmp.SetNa4TorAddr(k, 0x4000_0000);
    tmp.SetNa4TorAddr(k + 1, 0x8000_0000);
  }

  /** The first half of that configuration: entry k's A set to OFF, which
      leaves its zero byte alone, and entry k+1's to TOR. */
  method TorPairModes(k: nat) returns (tmp: Pmp)
    requires k + 1 < Entries
    ensures fresh(tmp) && fresh(tmp.addr) && tmp.Valid()
    ensures tmp.cfg[..] == ZeroCfgs[k + 1 := 0x08] && tmp.addr[..] == ZeroAddrs
  {
    TorCfgByte();
    tmp := new Pmp();
    assert tmp.cfg[k] == 0;
    tmp.SetAMode(k, Off);
    assert tmp.cfg[k] == OrMode(0, Off) == 0;
    assert tmp.cfg[..] == ZeroCfgs;
    assert tmp.cfg[k + 1] == 0;
    tmp.SetAMode(k + 1, Tor);
  }

  /** Under that configuration an address is granted exactly when it lies in
      [0x40000000, 0x80000000): entry k+1 takes its lower bound from entry k,
      although entry k itself is OFF. */
  lemma TorPairVerdicts(cfgs: seq<Byte>, addrs: seq<Word>, k: nat)
    requires k + 1 < Entries
    requires cfgs == ZeroCfgs[k + 1 := 0x08] && addrs == ZeroAddrs[k := 0x1000_0000][k + 1 := 0x2000_0000]
    ensures forall a: int :: SupervisorCheck(cfgs, addrs, a) ==
              if 0x4000_0000 <= a < 0x8000_0000 then AccessOk else AccessErr
  {
    var upper := k + 1;
    assert ModeOf(cfgs[upper]) == Tor;
    OthersOff(cfgs, upper);
    forall a: int
      ensures EntryMatches(cfgs, addrs, upper, a) <==> 0x4000_0000 <= a < 0x8000_0000
    {
      TorChained(cfgs, addrs, k, a);
    }
    SoleEntryVerdicts(cfgs, addrs, upper);
  }

  /** test_PMP_tor_memcheck and test_PMP_tor_higher_cfg_memcheck: the pair of
      entries grants exactly [0x40000000, 0x80000000), for k = 0 and for k = 5 alike. */
  method TorPairMemcheck(k: nat) returns (first: Access, last: Access, below: Access, top: Access)
    requires k + 1 < Entries
    ensures first == AccessOk && last == AccessOk
    ensures below == AccessErr && top == AccessErr
  {
    var tmp := TorPairStore(k);
    TorPairVerdicts(tmp.cfg[..], tmp.addr[..], k);
    first := tmp.SupervisorMemCheck(0x4000_0000);
    last := tmp.SupervisorMemCheck(0x7fff_ffff);
    below := tmp.SupervisorMemCheck(0x3fff_ffff);
    top := tmp.SupervisorMemCheck(0x8000_0000);
  }

  method TorMemcheck() returns (first: Access, last: Access, below: Access, top: Access)
    ensures first == AccessOk && last == AccessOk
    ensures below == AccessErr && top == AccessErr
  {
    first, last, below, top := TorPairMemcheck(0);
  }

  method TorHigherCfgMemcheck() returns (first: Access, last: Access, below: Access, top: Access)
    ensures first == AccessOk && last == AccessOk
    ensures below == AccessErr && top == AccessErr
  {
    first, last, below, top := TorPairMemcheck(5);
  }

  /** Entry 6 with A = TOR alone, in an otherwise zero group, packs to the
      register value 0x0008000000000000: its byte occupies bits 48-55. */
  lemma Group0Packing()
    ensures BytesOf(0x0008_0000_0000_0000) == [0, 0, 0, 0, 0, 0, 0x08, 0]
  {
  }

  /** The first machine-mode write of test_PMP_read_write_csr, on a zeroed
      store: configuration register 0 gets `word`, and since no entry is
      locked it reads back as written. */
  method ReadWriteCfgStore(word: Word) returns (live: Pmp)
    ensures fresh(live.cfg) && fresh(live.addr) && live.Valid()
    ensures live.CfgWord(0) == word && live.addr[..] == ZeroAddrs
  {
    live := new Pmp();
    ghost var zero := live.CfgWord(0);
    assert forall k :: 0 <= k < WordBytes ==> !Locked(ByteOf(zero, k));
    WriteCfgUnlocked(zero, word);
    live.WriteCsrCfg(0, word);
  }

  /** The remaining writes: address registers 5 and 6, whose entries the
      written word leaves unlocked (entry 6 holds A = TOR). */
  method ReadWriteStore(word: Word, a5: Word, a6: Word) returns (live: Pmp)
    requires BytesOf(word) == [0, 0, 0, 0, 0, 0, 0x08, 0]
    ensures fresh(live.cfg) && fresh(live.addr) && live.Valid()
    ensures live.CfgWord(0) == word && live.cfg[6] == 0x08
    ensures live.addr[..] == ZeroAddrs[5 := a5][6 := a6]
  {
    live := ReadWriteCfgStore(word);
    assert live.cfg[5] == 0 && live.cfg[6] == 0x08;
    live.WriteCsrAddr(5, a5);
    live.WriteCsrAddr(6, a6);
  }

  /** test_PMP_read_write_csr: a configuration register and two address
      registers copied in machine mode from a store built with the helpers
      read back as written: entry 6's byte is 0x08, register 0 packs to
      0x0008000000000000 and the address registers hold base >> 2. */
  method ReadWriteCsr() returns (liveCfg6: Byte, cfg0: Word, addr5: Word, addr6: Word)
    ensures liveCfg6 == 0x08
    ensures cfg0 == 0x0008_0000_0000_0000
    ensures addr5 == 0x1000_0000 && addr6 == 0x2000_0000
  {
    var tmp := TorPairStore(5);
    assert tmp.cfg[0..WordBytes] == [0, 0, 0, 0, 0, 0, 0x08, 0];
    var word := tmp.CfgWord(0);
    var live := ReadWriteStore(word, tmp.addr[5], tmp.addr[6]);
    liveCfg6 := live.cfg[6];
    cfg0 := live.ReadCsrCfg(0);
    Group0Packing();
    BytesOfInjective(cfg0, 0x0008_0000_0000_0000);
    addr5 := live.ReadCsrAddr(5);
    addr6 := live.ReadCsrAddr(6);
  }
}
