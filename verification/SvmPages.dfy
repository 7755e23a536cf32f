/** Pages and page addresses of shared virtual memory. */
module SvmPages {

  const PAGE_SIZE := 4096
  const WORD48 := 0x1_0000_0000_0000

  /** The address bits that are looked at. */
  function Mask(x: nat): nat {
    x % WORD48
  }

  /** The comparison the kernel makes: only the low 48 bits count. */
  predicate IsContiguous(addr: nat, last: nat) {
    Mask(addr) == Mask(last) + PAGE_SIZE
  }
}
