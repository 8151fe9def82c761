/** Numbers shared by several parts: sizes of inodes, nodes and table pages, and the reserved inodes. */
module Layout {
  const ADDRS_PER_INODE := 900
  const ADDRS_PER_BLOCK := 1018
  const NIDS_PER_BLOCK := 1018
  const NAT_ENTRY_PER_BLOCK := 455

  /** The first block below an indirect node, and below the double-indirect one. */
  const DIRECT_END := ADDRS_PER_INODE + 2 * ADDRS_PER_BLOCK
  const INDIRECT_END := DIRECT_END + 2 * NIDS_PER_BLOCK * ADDRS_PER_BLOCK

  const META_INO := 1
  const NODE_INO := 2
  const ROOT_INO := 3

  const REG_NAT_START := 6000
  const REG_NID_START := REG_NAT_START * NAT_ENTRY_PER_BLOCK

  // ----- The sizes in bytes -----

  const PAGE_BYTES := 4096

  /** A version byte, an inode number and an address. */
  const NAT_ENTRY_BYTES := 1 + 4 + 4

  /** Three numbers, a 64-bit version and an address end every node page. */
  const NODE_FOOTER_BYTES := 4 + 4 + 4 + 8 + 4

  /** Every slot of a table page lies inside the page, and one more would not fit. */
  lemma TableSlotFits(i: int)
    ensures (i + 1) * NAT_ENTRY_BYTES <= PAGE_BYTES <==> i < NAT_ENTRY_PER_BLOCK
  {
  }

  /** The slots of 4 bytes and the footer fill a direct or indirect node. */
  lemma NodeSlotFits(i: int)
    ensures (i + 1) * 4 + NODE_FOOTER_BYTES <= PAGE_BYTES <==> i < ADDRS_PER_BLOCK
    ensures ADDRS_PER_BLOCK == NIDS_PER_BLOCK
  {
  }

  /**
   * The entry of nid `n` is slot n % 455 of table page n / 455; the regular nids begin with 2730000, the
   * first one of page 6000.
   */
  lemma EntryPlace(n: int)
    requires 0 <= n
    ensures n / NAT_ENTRY_PER_BLOCK == n / 455 && n % NAT_ENTRY_PER_BLOCK == n % 455
    ensures (n % 455 + 1) * NAT_ENTRY_BYTES <= PAGE_BYTES
    ensures REG_NID_START <= n <==> 2730000 <= n
    ensures 2730000 <= n <==> 6000 <= n / 455
  {
  }

  /** Two entries share a page and a slot only if their nids are the same. */
  lemma EntriesApart(n: int, m: int)
    requires 0 <= n && 0 <= m && n / NAT_ENTRY_PER_BLOCK == m / NAT_ENTRY_PER_BLOCK
    requires (n % NAT_ENTRY_PER_BLOCK) * NAT_ENTRY_BYTES < (m % NAT_ENTRY_PER_BLOCK + 1) * NAT_ENTRY_BYTES
    requires (m % NAT_ENTRY_PER_BLOCK) * NAT_ENTRY_BYTES < (n % NAT_ENTRY_PER_BLOCK + 1) * NAT_ENTRY_BYTES
    ensures n == m
  {
    assert n == NAT_ENTRY_PER_BLOCK * (n / NAT_ENTRY_PER_BLOCK) + n % NAT_ENTRY_PER_BLOCK;
    assert m == NAT_ENTRY_PER_BLOCK * (m / NAT_ENTRY_PER_BLOCK) + m % NAT_ENTRY_PER_BLOCK;
  }

  lemma SubsetSize<T>(a: set<T>, b: set<T>)
    requires a <= b
    ensures |a| <= |b|
  {
    assert b == a + (b - a);
  }
}
