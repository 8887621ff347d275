/** Paging constants and page-table entries, as integers.

    A page-table or page-directory entry holds a frame number in bits 12..31 and flags in
    bits 0..11 (32-bit paging, section 4.3 of the Intel 64 and IA-32 Architectures Software
    Developer's Manual, Volume 3A).  Virtual pages are named by page number, PGNUM(va).
  */
module Mmu {
  const PGSIZE := 4096
  const NPTENTRIES := 1024

  const UTOP_PDX := 955        // PDX(UTOP), UTOP == 0xeec00000
  const UVPT_PDX := 957        // PDX(UVPT), UVPT == 0xef400000
  const UTOP_PN := 977920      // PGNUM(UTOP)
  const UTEXT_PN := 2048       // PGNUM(UTEXT)
  const PFTEMP_PN := 2047      // PGNUM(PFTEMP)
  const USTACK_PN := 977917    // PGNUM(USTACKTOP - PGSIZE)
  const UXSTACK_PN := 977919   // PGNUM(UXSTACKTOP - PGSIZE)

  const PTE_P := 1
  const PTE_W := 2
  const PTE_U := 4
  const PTE_COW := 0x800
  const MAX_REF := 65535       // pp_ref is a uint16_t

  function PteFrame(e: int): int { e / 4096 }

  function PteFlags(e: int): int { e % 4096 }

  function MkPte(frame: int, flags: int): int { frame * 4096 + flags }

  predicate HasP(flags: int) { flags % 2 == 1 }

  predicate HasW(flags: int) { flags / 2 % 2 == 1 }

  predicate HasU(flags: int) { flags / 4 % 2 == 1 }

  predicate HasCow(flags: int) { flags / 2048 % 2 == 1 }

  // flags within PTE_SYSCALL == PTE_AVAIL | PTE_P | PTE_W | PTE_U, that is bits 0-2 and 9-11
  predicate SyscallFlags(flags: int) { 0 <= flags < 4096 && flags / 8 % 64 == 0 }

  predicate Present(e: int) { HasP(PteFlags(e)) }

  // flags | PTE_P
  function OrP(flags: int): int { if HasP(flags) then flags else flags + 1 }

  predicate IsFlags(flags: int) { 0 <= flags < 4096 }

  lemma MkPteParts(frame: int, flags: int)
    requires IsFlags(flags)
    ensures PteFrame(MkPte(frame, flags)) == frame
    ensures PteFlags(MkPte(frame, flags)) == flags
  {
  }

  lemma OrPFlags(flags: int)
    requires IsFlags(flags)
    ensures IsFlags(OrP(flags)) && HasP(OrP(flags))
    ensures HasW(OrP(flags)) == HasW(flags) && HasCow(OrP(flags)) == HasCow(flags) && HasU(OrP(flags)) == HasU(flags)
    ensures HasP(flags) ==> OrP(flags) == flags
  {
  }
}
