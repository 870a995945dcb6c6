/** Addresses and page-table entries of the 32-bit two-level paging of section
    4.3 of the Intel SDM, volume 3A, as mmu.h takes them apart. */
module Paging {
  import opened Options

  const ENTRIES := 1024
  const USER_END := 0xC000_0000
  const USER_PAGES := 786432      // USER_END / 4096
  const USER_PDES := 768          // USER_PAGES / 1024
  const KERNEL_PDE := 768         // KERNEL_START / 0x400000; there are 4 MB of memory
  const PHYSICAL_PAGES := 1024    // 4 MB

  /** A physical page as 1024 words of 32 bits. */
  type Page = p: seq<nat> | |p| == ENTRIES witness seq(ENTRIES, _ => 0)

  function ZeroPage(): (z: Page)
    ensures forall j :: 0 <= j < ENTRIES ==> z[j] == 0
  {
    seq(ENTRIES, _ => 0)
  }

  function PageDown(a: nat): (r: nat)
    requires a < 0x1_0000_0000
    ensures r <= a < r + 4096 && r % 4096 == 0
  {
    a - a % 4096
  }

  /** page_up: the addition is on 32 bits and can wrap. */
  function PageUp(a: nat): nat
    requires a < 0x1_0000_0000
  {
    PageDown((a + 4096 - 1) % 0x1_0000_0000)
  }

  lemma PageUpIs(a: nat)
    requires a < 0x1_0000_0000
    ensures a <= 0xFFFF_F000 <==> a <= PageUp(a)
    ensures a <= 0xFFFF_F000 ==> PageUp(a) < a + 4096 && PageUp(a) % 4096 == 0
    ensures a <= USER_END ==> PageUp(a) <= USER_END
  {
  }

  function PdeIndex(vaddr: nat): nat { vaddr / 0x40_0000 }

  function PteIndex(vaddr: nat): nat { vaddr / 4096 % 1024 }

  /** pte_make with PTE_USER | PTE_WRITABLE | PTE_PRESENT, which is 7, the only
      attributes in use for a user's pages and tables. */
  function PteMake(frame: nat): nat { frame * 4096 + 7 }

  function PteFrame(pte: nat): nat { pte / 4096 }

  predicate PtePresent(pte: nat) { pte % 2 == 1 }

  predicate PteWritable(pte: nat) { pte / 2 % 2 == 1 }

  predicate PteUser(pte: nat) { pte / 4 % 2 == 1 }

  lemma PteRoundTrip(frame: nat)
    ensures PteFrame(PteMake(frame)) == frame && PtePresent(PteMake(frame)) && PteMake(frame) != 0
    ensures PteWritable(PteMake(frame)) && PteUser(PteMake(frame)) && PteMake(frame) / 8 % 512 == 0
  {
  }

  /** An address is its page's number; the two indices make up that number. */
  lemma IndicesOfPage(vaddr: nat)
    requires vaddr < USER_END
    ensures var v := vaddr / 4096;
            && PdeIndex(vaddr) == v / 1024 < USER_PDES && PteIndex(vaddr) == v % 1024
            && v == PdeIndex(vaddr) * 1024 + PteIndex(vaddr) < USER_PAGES
  {
  }

  /** A program at user level may read and write through the entry. */
  predicate Permits(pte: nat) { PtePresent(pte) && PteWritable(pte) && PteUser(pte) }

  /** What the processor does with the number of a user page when a program reads or writes
      there: the frame, or a fault. */
  function Walk(mem: seq<Page>, dir: nat, v: nat): Option<nat>
    requires dir < |mem| && v < USER_PAGES
  {
    var pde := mem[dir][v / 1024];
    if !Permits(pde) || PteFrame(pde) >= |mem| then None else
    var pte := mem[PteFrame(pde)][v % 1024];
    if !Permits(pte) then None else Some(PteFrame(pte))
  }

  /** A segment of a process: addresses from start to end. */
  datatype Segment = Segment(start: nat, end: nat)

  predicate UserSegment(s: Segment) { s.start <= s.end <= USER_END }

  /** The pages that loops from page_down(start) to page_up(end) visit. */
  function FirstPage(s: Segment): nat
    requires UserSegment(s)
  {
    PageDown(s.start) / 4096
  }

  function PastPage(s: Segment): (n: nat)
    requires UserSegment(s)
    ensures FirstPage(s) <= n <= USER_PAGES
  {
    PageUpIs(s.end);
    PageUp(s.end) / 4096
  }

  function Pages(s: Segment): (r: set<int>)
    requires UserSegment(s)
    ensures forall v :: v in r ==> 0 <= v < USER_PAGES
  {
    Range(FirstPage(s), PastPage(s))
  }

  /** They are those that hold an address of the segment; of a segment that is empty, the
      page that it begins inside. */
  lemma PagesCover(s: Segment, v: nat)
    requires UserSegment(s)
    ensures v in Pages(s) <==> 4096 * v < s.end && s.start < 4096 * (v + 1)
  {
    PageUpIs(s.end);
  }

  predicate Within(v: int, lo: int, hi: int) { lo <= v < hi }

  function Range(lo: int, hi: int): (r: set<int>)
    ensures forall v :: v in r <==> Within(v, lo, hi)
  {
    set v | lo <= v < hi && Within(v, lo, hi)
  }
}
