/** The history partition as NOR flash: pages that can be erased, and double words that can be
    programmed once between two erases. The on-flash formats are those of the version 2 pages. */
module FlashDevice {
  import opened Bytes

  const DW_DATA: nat := 7          // payload bytes of a double word; byte 7 is the frame byte
  const PAYLOAD_DW: nat := 251     // payload double words of a page
  const PAGE_DATA: nat := 1757     // PAYLOAD_DW * DW_DATA
  const FRAME_BYTE: byte := 0xA5
  const ERASED_BYTE: byte := 0xFF
  const PAGE_MAGIC: nat := 0x4852_4e32
  const ERASED_WORD: nat := 0xFFFF_FFFF
  const FIXUP_MARK: byte := 0x5A

  type DoubleWord = d: seq<byte> | |d| == 8 witness [0, 0, 0, 0, 0, 0, 0, 0]

  const ERASED_DW: DoubleWord := [0xFF, 0xFF, 0xFF, 0xFF, 0xFF, 0xFF, 0xFF, 0xFF]

  /** The first 30 bytes of a page header, the part its CRC covers. */
  datatype HeaderBody = HeaderBody(
    magic: nat, seqNo: nat, layout: nat, interval: nat,
    baseTime: nat, firstOrd: nat, sampleSize: nat, baseSynced: bool)

  datatype Header = Header(body: HeaderBody, crc: nat)

  const ERASED_HEADER: Header :=
    Header(HeaderBody(ERASED_WORD, ERASED_WORD, ERASED_WORD, ERASED_WORD, ERASED_WORD, ERASED_WORD, 0xFFFF, true), 0xFFFF)

  /** The double word after the header: erased, or programmed once after a clock sync. */
  datatype FixUp = FixUpErased | FixUpWritten(offset: nat, mark: byte, crc: nat)

  datatype Page = Page(hdr: Header, fixUp: FixUp, dws: seq<DoubleWord>)

  function ErasedPage(): Page { Page(ERASED_HEADER, FixUpErased, seq(PAYLOAD_DW, _ => ERASED_DW)) }

  /** A partition of `n` erased pages. */
  function BlankPages(n: nat): (r: seq<Page>)
    ensures |r| == n && forall p :: 0 <= p < n ==> r[p] == ErasedPage()
  {
    seq(n, _ => ErasedPage())
  }

  /** Every write reports success or failure; which of the two is the device's choice, and `faults`
      counts the failures. A program operation may only target what is still erased: that is what
      `requires` says, and every call in the project is proved to meet it. */
  class Flash {
    var pages: seq<Page>
    ghost var faults: nat

    constructor (n: nat)
      ensures pages == BlankPages(n) && faults == 0
    {
      pages, faults := BlankPages(n), 0;
    }

    method Erase(p: nat) returns (ok: bool)
      requires p < |pages|
      modifies this
      ensures pages == if ok then old(pages)[p := ErasedPage()] else old(pages)
      ensures faults == old(faults) + if ok then 0 else 1
    {
      ok := *;
      if ok {
        pages := pages[p := ErasedPage()];
      } else {
        faults := faults + 1;
      }
    }

    method EraseAll() returns (ok: bool)
      modifies this
      ensures pages == if ok then BlankPages(|old(pages)|) else old(pages)
      ensures faults == old(faults) + if ok then 0 else 1
    {
      ok := *;
      if ok {
        pages := BlankPages(|pages|);
      } else {
        faults := faults + 1;
      }
    }

    method WriteHeader(p: nat, h: Header) returns (ok: bool)
      requires p < |pages| && pages[p].hdr == ERASED_HEADER
      modifies this
      ensures pages == if ok then old(pages)[p := old(pages)[p].(hdr := h)] else old(pages)
      ensures faults == old(faults) + if ok then 0 else 1
    {
      ok := *;
      if ok {
        pages := pages[p := pages[p].(hdr := h)];
      } else {
        faults := faults + 1;
      }
    }

    method WriteFixUp(p: nat, f: FixUp) returns (ok: bool)
      requires p < |pages| && pages[p].fixUp.FixUpErased?
      modifies this
      ensures pages == if ok then old(pages)[p := old(pages)[p].(fixUp := f)] else old(pages)
      ensures faults == old(faults) + if ok then 0 else 1
    {
      ok := *;
      if ok {
        pages := pages[p := pages[p].(fixUp := f)];
      } else {
        faults := faults + 1;
      }
    }

    method ProgramDw(p: nat, k: nat, dw: DoubleWord) returns (ok: bool)
      requires p < |pages| && k < |pages[p].dws| && pages[p].dws[k] == ERASED_DW
      modifies this
      ensures pages == if ok then old(pages)[p := Programmed(old(pages)[p], k, dw)] else old(pages)
      ensures faults == old(faults) + if ok then 0 else 1
    {
      ok := *;
      if ok {
        pages := pages[p := Programmed(pages[p], k, dw)];
      } else {
        faults := faults + 1;
      }
    }
  }

  function Programmed(pg: Page, k: nat, dw: DoubleWord): Page
    requires k < |pg.dws|
  {
    pg.(dws := pg.dws[k := dw])
  }

  // ---- The byte stream of a page --------------------------------------------------------------

  /** Number of leading double words whose frame byte is not erased: the write head of a page. */
  function WrittenDw(dws: seq<DoubleWord>, from: nat := 0): (w: nat)
    requires from <= |dws|
    requires forall k :: 0 <= k < from ==> dws[k][7] != ERASED_BYTE
    ensures from <= w <= |dws|
    ensures forall k :: 0 <= k < w ==> dws[k][7] != ERASED_BYTE
    ensures w < |dws| ==> dws[w][7] == ERASED_BYTE
    decreases |dws| - from
  {
    if from == |dws| || dws[from][7] == ERASED_BYTE then from else WrittenDw(dws, from + 1)
  }

  /** The data bytes of the first `k` double words, frame bytes left out. */
  function Flushed(dws: seq<DoubleWord>, k: nat): (s: seq<byte>)
    requires k <= |dws|
    ensures |s| == DW_DATA * k
  {
    if k == 0 then [] else Flushed(dws, k - 1) + dws[k - 1][..DW_DATA]
  }

  /** A page that is programmed in order: everything past the write head is erased. */
  ghost predicate Tidy(dws: seq<DoubleWord>) {
    && |dws| == PAYLOAD_DW
    && forall k :: WrittenDw(dws) <= k < |dws| ==> dws[k] == ERASED_DW
  }

  lemma {:induction false} FlushedAt(dws: seq<DoubleWord>, k: nat, d: nat)
    requires k <= |dws| && d < DW_DATA * k
    ensures Flushed(dws, k)[d] == dws[d / DW_DATA][d % DW_DATA]
  {
    if d < DW_DATA * (k - 1) {
      FlushedAt(dws, k - 1, d);
    } else {
      assert d / DW_DATA == k - 1;
    }
  }

  lemma {:induction false} FlushedPrefix(dws: seq<DoubleWord>, k: nat, n: nat)
    requires k <= n <= |dws|
    ensures Flushed(dws, k) <= Flushed(dws, n)
  {
    if k < n {
      FlushedPrefix(dws, k, n - 1);
    }
  }

  /** Past the write head a page reads as erased bytes. */
  lemma FlushedErased(dws: seq<DoubleWord>, d: nat)
    requires Tidy(dws) && DW_DATA * WrittenDw(dws) <= d < PAGE_DATA
    ensures Flushed(dws, PAYLOAD_DW)[d] == ERASED_BYTE
  {
    hide WrittenDw;
    FlushedAt(dws, PAYLOAD_DW, d);
    assert d / DW_DATA >= WrittenDw(dws);
  }

  lemma {:induction false} FlushedLocal(a: seq<DoubleWord>, b: seq<DoubleWord>, k: nat)
    requires k <= |a| && k <= |b| && a[..k] == b[..k]
    ensures Flushed(a, k) == Flushed(b, k)
  {
    if k > 0 {
      assert a[..k - 1] == a[..k][..k - 1] == b[..k][..k - 1] == b[..k - 1];
      assert a[k - 1] == a[..k][k - 1] == b[..k][k - 1] == b[k - 1];
      FlushedLocal(a, b, k - 1);
    }
  }

  /** Programming the double word at the write head appends its seven data bytes to the stream. */
  lemma ProgramAppends(dws: seq<DoubleWord>, dw: DoubleWord)
    requires Tidy(dws) && WrittenDw(dws) < |dws| && dw[7] == FRAME_BYTE
    ensures var w := WrittenDw(dws); var after := dws[w := dw];
      && Tidy(after) && WrittenDw(after) == w + 1
      && Flushed(after, w + 1) == Flushed(dws, w) + dw[..DW_DATA]
  {
    var w := WrittenDw(dws);
    var after := dws[w := dw];
    assert forall k :: 0 <= k < w ==> after[k] == dws[k];
    assert after[w][7] != ERASED_BYTE;
    assert w + 1 < |dws| ==> after[w + 1] == ERASED_DW;
    assert WrittenDw(after) == w + 1;
    assert after[..w] == dws[..w];
    FlushedLocal(after, dws, w);
  }

  lemma ErasedIsTidy()
    ensures Tidy(ErasedPage().dws) && WrittenDw(ErasedPage().dws) == 0
  {
    assert ErasedPage().dws[0][7] == ERASED_BYTE;
  }
}
