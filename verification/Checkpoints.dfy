/** Merging the memory of several checkpoints (gem5/util/checkpoint_aggregator.py). */
module Checkpoints {
  import opened Common

  const PAGE := 4096

  /** The character '0', which zfill pads with */
  const PADDING: Byte := 0x30

  /** A checkpoint: its page count, its memory file, the physical addresses its processor sections
      hold, and its tick. */
  datatype Checkpoint = Checkpoint(pages: nat, memory: seq<Byte>, paddrs: seq<nat>, tick: nat)

  /** What reading so many pages of a file gives */
  function Taken(c: Checkpoint): (s: seq<Byte>) {
    if |c.memory| <= PAGE * c.pages then c.memory else c.memory[..PAGE * c.pages]
  }

  predicate Full(c: Checkpoint) {
    |c.memory| >= PAGE * c.pages
  }

  /** The pages of the checkpoints before the i-th, by which it is moved */
  function Pages(cpts: seq<Checkpoint>, i: nat): (p: nat)
    requires i <= |cpts|
  {
    if i == 0 then 0 else Pages(cpts, i - 1) + cpts[i - 1].pages
  }

  function Image(cpts: seq<Checkpoint>, i: nat): (s: seq<Byte>)
    requires i <= |cpts|
  {
    if i == 0 then [] else Image(cpts, i - 1) + Taken(cpts[i - 1])
  }

  /** The bytes of a checkpoint start where its addresses are moved to exactly when the memory files
      before it are complete. */
  lemma {:induction false} ImageSize(cpts: seq<Checkpoint>, i: nat)
    requires i <= |cpts|
    ensures |Image(cpts, i)| <= PAGE * Pages(cpts, i)
    ensures |Image(cpts, i)| == PAGE * Pages(cpts, i) <==> forall j :: 0 <= j < i ==> Full(cpts[j])
    decreases i
  {
    if i > 0 {
      ImageSize(cpts, i - 1);
    }
  }

  lemma {:induction false} ImageGrows(cpts: seq<Checkpoint>, i: nat, j: nat)
    requires i <= j <= |cpts|
    ensures Image(cpts, i) <= Image(cpts, j)
    decreases j
  {
    if i < j {
      ImageGrows(cpts, i, j - 1);
    }
  }

  lemma {:induction false} PagesGrow(cpts: seq<Checkpoint>, i: nat, j: nat)
    requires i <= j <= |cpts|
    ensures Pages(cpts, i) <= Pages(cpts, j)
    decreases j
  {
    if i < j {
      PagesGrow(cpts, i, j - 1);
    }
  }

  /** The windows of two checkpoints do not meet. */
  lemma {:induction false} WindowsDisjoint(cpts: seq<Checkpoint>, i: nat, j: nat, a: nat, b: nat)
    requires i < j < |cpts| && a < PAGE * cpts[i].pages && b < PAGE * cpts[j].pages
    ensures a + PAGE * Pages(cpts, i) < b + PAGE * Pages(cpts, j) < PAGE * Pages(cpts, |cpts|)
  {
    PagesGrow(cpts, i + 1, j);
    PagesGrow(cpts, j + 1, |cpts|);
  }

  /** Where the bytes of a checkpoint are in the image */
  lemma {:induction false} ImageAt(cpts: seq<Checkpoint>, i: nat, a: nat)
    requires i < |cpts| && a < |Taken(cpts[i])|
    ensures var at := |Image(cpts, i)| + a; var image := Image(cpts, |cpts|);
      at < |image| && image[at] == cpts[i].memory[a]
  {
    ImageGrows(cpts, i + 1, |cpts|);
    assert Image(cpts, i + 1)[|Image(cpts, i)| + a] == Taken(cpts[i])[a];
  }

  /** Moved by the pages before it, an address finds its byte, if the memory files before it are
      complete. */
  lemma {:induction false} RelocatedByte(cpts: seq<Checkpoint>, i: nat, paddr: nat, image: seq<Byte>)
    requires i < |cpts| && Full(cpts[i]) && paddr < PAGE * cpts[i].pages
    requires forall j :: 0 <= j < i ==> Full(cpts[j])
    requires Image(cpts, |cpts|) <= image
    ensures var at := paddr + PAGE * Pages(cpts, i); at < |image| && image[at] == cpts[i].memory[paddr]
  {
    ImageSize(cpts, i);
    ImageAt(cpts, i, paddr);
  }

  function Relocated(paddrs: seq<nat>, pagePtr: nat): (r: seq<nat>)
    ensures |r| == |paddrs| && forall k :: 0 <= k < |r| ==> r[k] == paddrs[k] + PAGE * pagePtr
  {
    seq(|paddrs|, k requires 0 <= k < |paddrs| => paddrs[k] + PAGE * pagePtr)
  }

  function AllRelocated(cpts: seq<Checkpoint>, i: nat): (r: seq<seq<nat>>)
    requires i <= |cpts|
    ensures |r| == i
  {
    if i == 0 then [] else AllRelocated(cpts, i - 1) + [Relocated(cpts[i - 1].paddrs, Pages(cpts, i - 1))]
  }

  lemma {:induction false} AllRelocatedAt(cpts: seq<Checkpoint>, n: nat, i: nat)
    requires i < n <= |cpts|
    ensures AllRelocated(cpts, n)[i] == Relocated(cpts[i].paddrs, Pages(cpts, i))
    decreases n
  {
    if i < n - 1 {
      AllRelocatedAt(cpts, n - 1, i);
    }
  }

  /** Address k of checkpoint i, as moved, finds in the image the byte it had. */
  ghost predicate Finds(cpts: seq<Checkpoint>, image: seq<Byte>, paddrs: seq<seq<nat>>, i: nat, k: nat)
    requires i < |cpts| && k < |cpts[i].paddrs|
  {
    && i < |paddrs| && k < |paddrs[i]|
    && paddrs[i][k] < |image| && cpts[i].paddrs[k] < |cpts[i].memory|
    && image[paddrs[i][k]] == cpts[i].memory[cpts[i].paddrs[k]]
  }

  /** It is an address of the checkpoint's pages, and the memory files up to there are complete. */
  ghost predicate Stored(cpts: seq<Checkpoint>, i: nat, k: nat)
    requires i < |cpts| && k < |cpts[i].paddrs|
  {
    cpts[i].paddrs[k] < PAGE * cpts[i].pages && forall j :: 0 <= j <= i ==> Full(cpts[j])
  }

  lemma {:induction false} MovedFinds(cpts: seq<Checkpoint>, image: seq<Byte>, i: nat, k: nat)
    requires i < |cpts| && k < |cpts[i].paddrs| && Stored(cpts, i, k)
    requires Image(cpts, |cpts|) <= image
    ensures Finds(cpts, image, AllRelocated(cpts, |cpts|), i, k)
  {
    AllRelocatedAt(cpts, |cpts|, i);
    RelocatedByte(cpts, i, cpts[i].paddrs[k], image);
  }

  function MaxTick(cpts: seq<Checkpoint>, i: nat): (t: nat)
    requires i <= |cpts|
  {
    if i == 0 then 0
    else if cpts[i - 1].tick > MaxTick(cpts, i - 1) then cpts[i - 1].tick
    else MaxTick(cpts, i - 1)
  }

  /** It is the latest tick: no tick is beyond it, and it is one of them unless there is none. */
  lemma {:induction false} MaxTickIsLatest(cpts: seq<Checkpoint>, i: nat)
    requires i <= |cpts|
    ensures forall j :: 0 <= j < i ==> cpts[j].tick <= MaxTick(cpts, i)
    ensures MaxTick(cpts, i) == 0 || exists j :: 0 <= j < i && cpts[j].tick == MaxTick(cpts, i)
    decreases i
  {
    if i > 0 {
      MaxTickIsLatest(cpts, i - 1);
    }
  }

  /** Reads the pages of one checkpoint, 4096 bytes at a time, and appends them. */
  method CopyPages(c: Checkpoint, image: seq<Byte>) returns (r: seq<Byte>)
    ensures r == image + Taken(c)
  {
    var x, pos := 0, 0;
    r := image;
    while x < c.pages
      invariant 0 <= x <= c.pages && 0 <= pos <= |c.memory|
      invariant pos == if |c.memory| <= PAGE * x then |c.memory| else PAGE * x
      invariant r == image + c.memory[..pos]
    {
      var end := if |c.memory| - pos < PAGE then |c.memory| else pos + PAGE;
      var bytesRead := c.memory[pos..end];
      assert c.memory[..end] == c.memory[..pos] + bytesRead;
      r := r + bytesRead;
      pos, x := end, x + 1;
    }
    assert c.memory[..|c.memory|] == c.memory;
  }

  /** The loop of aggregate over the checkpoints */
  method Merge(cpts: seq<Checkpoint>) returns (image: seq<Byte>, paddrs: seq<seq<nat>>, pagePtr: nat, curTick: nat)
    ensures image == Image(cpts, |cpts|) && paddrs == AllRelocated(cpts, |cpts|)
    ensures pagePtr == Pages(cpts, |cpts|) && curTick == MaxTick(cpts, |cpts|)
  {
    image, paddrs, pagePtr, curTick := [], [], 0, 0;
    for i := 0 to |cpts|
      invariant image == Image(cpts, i) && paddrs == AllRelocated(cpts, i)
      invariant pagePtr == Pages(cpts, i) && curTick == MaxTick(cpts, i)
    {
      var c := cpts[i];
      paddrs := paddrs + [Relocated(c.paddrs, pagePtr)];
      if c.tick > curTick {
        curTick := c.tick;
      }
      pagePtr := pagePtr + c.pages;
      image := CopyPages(c, image);
    }
  }

  /** What aggregate writes: the merged memory, the moved addresses of every checkpoint, and the number of
      pages, the size and the tick of the merged configuration */
  datatype Merged = Merged(image: seq<Byte>, paddrs: seq<seq<nat>>, pagePtr: nat, rangeSize: nat, curTick: nat)

  /** aggregate: without a checkpoint there is no configuration to write to, and Python raises. */
  method Aggregate(cpts: seq<Checkpoint>, memorySize: int) returns (r: Option<Merged>)
    ensures r == None <==> cpts == []
    ensures r.Some? ==> IsMerged(cpts, memorySize, r.value)
    ensures r.Some? && r.value.rangeSize > 4096 * r.value.pagePtr ==> r.value.rangeSize - 4096 < memorySize <= r.value.rangeSize
    ensures r.Some? && r.value.rangeSize <= 4096 * r.value.pagePtr ==> r.value.rangeSize == 4096 * r.value.pagePtr
  {
    var image, paddrs, pagePtr, curTick := Merge(cpts);
    if cpts == [] {
      return None;
    }
    ImageSize(cpts, |cpts|);
    MaxTickIsLatest(cpts, |cpts|);
    var rangeSize;
    image, rangeSize := Pad(image, pagePtr, memorySize);
    forall i, k | 0 <= i < |cpts| && 0 <= k < |cpts[i].paddrs| && Stored(cpts, i, k)
      ensures Finds(cpts, image, paddrs, i, k)
    {
      MovedFinds(cpts, image, i, k);
    }
    r := Some(Merged(image, paddrs, pagePtr, rangeSize, curTick));
  }

  /** Every stored address finds its byte, the tick is the latest, and the size covers the pages and the
      memory asked for, the padding included. */
  ghost predicate IsMerged(cpts: seq<Checkpoint>, memorySize: int, m: Merged) {
    var merged := Image(cpts, |cpts|);
    && merged <= m.image && m.paddrs == AllRelocated(cpts, |cpts|) && m.pagePtr == Pages(cpts, |cpts|)
    && (forall i, k :: 0 <= i < |cpts| && 0 <= k < |cpts[i].paddrs| && Stored(cpts, i, k) ==>
      Finds(cpts, m.image, m.paddrs, i, k))
    && IsLatest(cpts, m.curTick)
    && m.rangeSize >= memorySize && m.rangeSize % PAGE == 0 && m.rangeSize >= PAGE * m.pagePtr
    && (m.rangeSize > PAGE * m.pagePtr ==> m.rangeSize - PAGE < memorySize)
    && (m.rangeSize == |m.image| <==> forall i :: 0 <= i < |cpts| ==> Full(cpts[i]))
    && (forall i :: |merged| <= i < |m.image| ==> m.image[i] == PADDING)
    && |m.image| - |merged| == m.rangeSize - PAGE * m.pagePtr
  }

  ghost predicate IsLatest(cpts: seq<Checkpoint>, tick: nat) {
    && (forall i :: 0 <= i < |cpts| ==> cpts[i].tick <= tick)
    && (tick == 0 || exists i :: 0 <= i < |cpts| && cpts[i].tick == tick)
  }

  /** The padding loop */
  method Pad(image: seq<Byte>, pagePtr: nat, memorySize: int) returns (r: seq<Byte>, rangeSize: nat)
    ensures image <= r && rangeSize >= memorySize && rangeSize % PAGE == 0
    ensures rangeSize >= PAGE * pagePtr && |r| - |image| == rangeSize - PAGE * pagePtr
    ensures forall i :: |image| <= i < |r| ==> r[i] == PADDING
    ensures rangeSize > PAGE * pagePtr ==> rangeSize - PAGE < memorySize
  {
    var fileSize, pages := PAGE * pagePtr, pagePtr;
    r := image;
    while fileSize < memorySize
      invariant fileSize == PAGE * pages >= PAGE * pagePtr
      invariant image <= r && |r| - |image| == fileSize - PAGE * pagePtr
      invariant forall i :: |image| <= i < |r| ==> r[i] == PADDING
      invariant fileSize > PAGE * pagePtr ==> fileSize - PAGE < memorySize
    {
      r := r + seq(PAGE, _ => PADDING);
      fileSize, pages := fileSize + PAGE, pages + 1;
    }
    rangeSize := pages * PAGE;
  }

  /** One page each, but the first memory file is empty: the second checkpoint's first address is moved
      to where the padding is. */
  method ShiftsWrongly() returns (image: seq<Byte>, paddrs: seq<seq<nat>>)
    ensures |paddrs| == 2 && paddrs[1] == [PAGE] && PAGE < |image| && image[PAGE] != 1
  {
    var second := Checkpoint(1, seq(PAGE, _ => 1), [0], 0);
    var cpts := [Checkpoint(1, [], [], 0), second];
    ghost var merged := Image(cpts, 2);
    assert merged == Image(cpts, 1) + Taken(second) && Image(cpts, 1) == Image(cpts, 0) + [];
    assert |merged| == PAGE && Pages(cpts, 1) == 1 && Pages(cpts, 2) == 2;
    AllRelocatedAt(cpts, 2, 1);
    var r := Aggregate(cpts, 3 * PAGE);
    image, paddrs := r.value.image, r.value.paddrs;
  }
}
