/** Capacity clamp and read-command construction (src/sdmmc_sd/common.rs, src/sdmmc_sd/cmd.rs). */
module Sectors {
  import opened Common
  import opened HwCmd
  import opened Cmd
  import opened Division

  const READ_BLOCK_SIZE: U32 := 512

  /**
   * init_csd: a byte-addressed card is limited to the blocks a 32-bit byte address reaches. None
   * where the 32-bit arithmetic divides by zero (sector size 0) or overflows (sector size 1).
   */
  function ClampCapacity(sdhc: bool, sectorSize: U32, capacity: U32): Option<U32> {
    if sectorSize == 0 || U32_MAX / sectorSize + 1 > U32_MAX then None
    else
      var limit: U32 := U32_MAX / sectorSize + 1;
      Some(if !sdhc && capacity > limit then limit else capacity)
  }

  /** read_sectors_dma: None where a 32-bit product overflows. */
  function ReadCommand(sdhc: bool, startBlock: U32, blockCount: U32): Option<Command> {
    if blockCount * READ_BLOCK_SIZE > U32_MAX || (!sdhc && startBlock * READ_BLOCK_SIZE > U32_MAX) then None
    else Some(Command(
      if blockCount == 1 then MMC_READ_BLOCK_SINGLE else MMC_READ_BLOCK_MULTIPLE,
      if sdhc then startBlock else startBlock * READ_BLOCK_SIZE,
      true,
      blockCount * READ_BLOCK_SIZE,
      READ_BLOCK_SIZE,
      SCF_RSP_R1 + {SCF_CMD_ADTC, SCF_CMD_READ},
      1000))
  }

  /** The clamp is exact: the limit is the number of blocks whose byte address fits 32 bits. */
  lemma ClampExact(sectorSize: U32, start: nat)
    requires sectorSize >= 2
    ensures start * sectorSize <= U32_MAX <==> start < U32_MAX / sectorSize + 1
  {
    var q := U32_MAX / sectorSize;
    assert U32_MAX == q * sectorSize + U32_MAX % sectorSize;
    if start <= q {
      MulMonotone(start, q, sectorSize);
    } else {
      MulMonotone(q + 1, start, sectorSize);
      assert (q + 1) * sectorSize == q * sectorSize + sectorSize;
    }
  }

  /** After the clamp every block of the card has an address, for any sector size of at least 2. */
  lemma ClampedInRange(sdhc: bool, sectorSize: U32, capacity: U32, start: nat)
    ensures ClampCapacity(sdhc, sectorSize, capacity).Some? <==> sectorSize >= 2
    ensures sectorSize >= 2 && !sdhc && start < ClampCapacity(sdhc, sectorSize, capacity).value
      ==> start * sectorSize <= U32_MAX
  {
    if sectorSize >= 2 {
      ClampExact(sectorSize, start);
      var q := U32_MAX / sectorSize;
      assert q * sectorSize <= U32_MAX;
      MulMonotone(2, sectorSize, q);
      assert q * 2 <= q * sectorSize;
    }
  }

  /**
   * What a read addresses: block 0 has argument 0, and consecutive blocks have arguments 512
   * bytes apart on a byte-addressed card, and 1 apart on a block-addressed one.
   */
  lemma ReadSteps(sdhc: bool, start: U32, count: U32)
    requires start < U32_MAX && ReadCommand(sdhc, start + 1, count).Some?
    ensures ReadCommand(sdhc, 0, count).value.arg == 0
    ensures ReadCommand(sdhc, start, count).Some?
    ensures ReadCommand(sdhc, start + 1, count).value.arg ==
      ReadCommand(sdhc, start, count).value.arg + if sdhc then 1 else 512
  {
    assert (start + 1) * READ_BLOCK_SIZE == start * READ_BLOCK_SIZE + READ_BLOCK_SIZE;
  }

  /**
   * A read inside the clamped capacity always has an argument, and different blocks have
   * different arguments, in both addressing modes.
   */
  lemma ReadAddresses(sdhc: bool, capacity: U32, start: U32, start': U32, count: U32)
    requires count * READ_BLOCK_SIZE <= U32_MAX
    requires start < ClampCapacity(sdhc, READ_BLOCK_SIZE, capacity).value
    requires start' < ClampCapacity(sdhc, READ_BLOCK_SIZE, capacity).value
    ensures ReadCommand(sdhc, start, count).Some? && ReadCommand(sdhc, start', count).Some?
    ensures ReadCommand(sdhc, start, count).value.arg == ReadCommand(sdhc, start', count).value.arg <==> start == start'
  {
    ClampedInRange(sdhc, READ_BLOCK_SIZE, capacity, start);
    ClampedInRange(sdhc, READ_BLOCK_SIZE, capacity, start');
  }

  /**
   * On a byte-addressed card the byte ranges of reads that share no block are disjoint, and those
   * of reads that end within the capacity lie within its bytes.
   */
  lemma ReadRanges(capacity: U32, start: U32, count: U32, start': U32, count': U32)
    requires ReadCommand(false, start, count).Some? && ReadCommand(false, start', count').Some?
    requires start + count <= start' && start' + count' <= capacity
    ensures var c, c' := ReadCommand(false, start, count).value, ReadCommand(false, start', count').value;
      c.arg + c.datalen <= c'.arg && c'.arg + c'.datalen <= capacity * 512
  {
    MulMonotone(start + count, start', 512);
    MulMonotone(start' + count', capacity, 512);
    assert start * 512 + count * 512 == (start + count) * 512;
    assert start' * 512 + count' * 512 == (start' + count') * 512;
  }

  lemma Multiple(count: nat, k: nat)
    requires k > 0
    ensures (count * k) % k == 0
  {
    DivGreatest(count * k, k, count);
    DivGreatest(count * k, k, count + 1);
    Distribute(count, k);
    QuotientRemainder(count * k, k);
  }

  /** A read command passes the block-size assertion and the size check on its way out. */
  lemma ReadAccepted(sdhc: bool, start: U32, count: U32)
    requires ReadCommand(sdhc, start, count).Some?
    ensures var c := ReadCommand(sdhc, start, count).value;
      && WholeBlocks(c) && SizeAccepted(c) && c.hasData && c.datalen == 512 * count && c.blklen == 512
      && c.flags == {4, 6, 10, 11, 12} && c.timeoutMs == 1000
  {
    Multiple(count, READ_BLOCK_SIZE);
    Multiple(128 * count, 4);
  }

  /** The fields a read asks for. */
  function ReadFields(count: U32): set<Flag> {
    {ResponseExpect, CheckResponseCrc, DataExpected, Rw, WaitComplete} + if count >= 2 then {SendAutoStop} else {}
  }

  lemma ReadAsks(sdhc: bool, start: U32, count: U32, g: Flag)
    requires ReadCommand(sdhc, start, count).Some?
    ensures Asks(ReadCommand(sdhc, start, count).value, g) <==> g in ReadFields(count)
  {}

  /**
   * The command word of a read: CMD17 or CMD18, with data expected, the rw bit set, the response
   * checked, an automatic stop exactly from two blocks on, and no other field.
   */
  lemma ReadWord(sdhc: bool, start: U32, count: U32)
    requires ReadCommand(sdhc, start, count).Some?
    ensures MakeHwCmd(ReadCommand(sdhc, start, count).value).Some?
    ensures Decode(MakeHwCmd(ReadCommand(sdhc, start, count).value).value) ==
      Fields(if count == 1 then 17 else 18, 0, ReadFields(count))
  {
    var c := ReadCommand(sdhc, start, count).value;
    ReadAccepted(sdhc, start, count);
    MakeHwCmdDecodes(c);
    forall g: Flag ensures Asks(c, g) <==> g in ReadFields(count) {
      ReadAsks(sdhc, start, count, g);
    }
  }

  /** The clamp leaves a block-addressed card alone, and of a byte-addressed one keeps every block it can. */
  lemma ClampKeeps(sdhc: bool, sectorSize: U32, capacity: U32, start: nat)
    requires sectorSize >= 2
    ensures var r := ClampCapacity(sdhc, sectorSize, capacity).value;
      start < r <==> start < capacity && (sdhc || start * sectorSize <= U32_MAX)
  {
    ClampedInRange(sdhc, sectorSize, capacity, start);
    ClampExact(sectorSize, start);
  }
}
