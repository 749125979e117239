/** Disk compaction (src/bin/day09.rs). The dense disk map alternates file
    and free-space lengths; part 1 moves single blocks from the end of the
    disk into the leftmost gaps, part 2 moves whole files into the first gap
    that can hold them. Both report the sum of position * file id over the
    resulting blocks. */
module Disk {
  import opened Util

  datatype DiskEntry = Free(len: nat) | File(len: nat, id: nat)

  predicate IsDigit(c: char)
  {
    '0' <= c <= '9'
  }

  function DigitValue(c: char): (v: nat)
    requires IsDigit(c)
    ensures v <= 9
  {
    c as int - '0' as int
  }

  predicate AllDigits(s: string)
  {
    forall i :: 0 <= i < |s| ==> IsDigit(s[i])
  }

  /** The dense disk map read as entries: even positions are files numbered
      by their position halved, odd positions are free runs. */
  function Parse(input: string): (es: seq<DiskEntry>)
    requires AllDigits(input)
    ensures |es| == |input|
    ensures forall i :: 0 <= i < |es| ==>
      es[i].len == DigitValue(input[i]) && (es[i].File? <==> i % 2 == 0)
    ensures forall i :: 0 <= i < |es| && es[i].File? ==> es[i].id == i / 2
  {
    seq(|input|, i requires 0 <= i < |input| =>
      if i % 2 == 0 then File(DigitValue(input[i]), i / 2) else Free(DigitValue(input[i])))
  }

  // ---------------------------------------------------------------------
  // Blocks: the disk one block at a time, None for a free block.

  function Rep<T>(x: T, n: nat): (r: seq<T>)
    ensures |r| == n && forall i :: 0 <= i < n ==> r[i] == x
  {
    seq(n, _ => x)
  }

  lemma RepSplit<T>(x: T, n: nat)
    requires n > 0
    ensures Rep(x, n) == Rep(x, n - 1) + [x]
    ensures Rep(x, n) == [x] + Rep(x, n - 1)
  {
  }

  /** A free block. */
  const Gap: Option<nat> := None

  function EntryBlocks(e: DiskEntry): seq<Option<nat>>
  {
    if e.File? then Rep(Some(e.id), e.len) else Rep(Gap, e.len)
  }

  function Blocks(es: seq<DiskEntry>): seq<Option<nat>>
  {
    if es == [] then [] else EntryBlocks(es[0]) + Blocks(es[1..])
  }

  /** The number of blocks the entries span. */
  function TotalLen(es: seq<DiskEntry>): nat
  {
    if es == [] then 0 else es[0].len + TotalLen(es[1..])
  }

  /** The blocks of all file entries. */
  function FileLen(es: seq<DiskEntry>): nat
  {
    if es == [] then 0 else (if es[0].File? then es[0].len else 0) + FileLen(es[1..])
  }

  lemma {:induction false} BlocksAppend(a: seq<DiskEntry>, b: seq<DiskEntry>)
    ensures Blocks(a + b) == Blocks(a) + Blocks(b)
    ensures TotalLen(a + b) == TotalLen(a) + TotalLen(b)
    decreases |a|
  {
    if a == [] {
      assert a + b == b;
    } else {
      assert (a + b)[1..] == a[1..] + b;
      BlocksAppend(a[1..], b);
    }
  }

  /** Removing the last entry removes its blocks from the end. */
  lemma BlocksLast(es: seq<DiskEntry>)
    requires es != []
    ensures Blocks(es) == Blocks(es[..|es| - 1]) + EntryBlocks(es[|es| - 1])
    ensures TotalLen(es) == TotalLen(es[..|es| - 1]) + es[|es| - 1].len
  {
    var n := |es| - 1;
    assert es == es[..n] + [es[n]];
    BlocksAppend(es[..n], [es[n]]);
    assert [es[n]][1..] == [];
  }

  /** The file ids of the blocks, with multiplicity. */
  function FileIds(b: seq<Option<nat>>): multiset<nat>
  {
    if b == [] then multiset{}
    else (if b[0].Some? then multiset{b[0].value} else multiset{}) + FileIds(b[1..])
  }

  lemma {:induction false} FileIdsAppend(a: seq<Option<nat>>, b: seq<Option<nat>>)
    ensures FileIds(a + b) == FileIds(a) + FileIds(b)
    decreases |a|
  {
    if a == [] {
      assert a + b == b;
    } else {
      assert (a + b)[1..] == a[1..] + b;
      FileIdsAppend(a[1..], b);
    }
  }

  lemma {:induction false} FileIdsRep(x: Option<nat>, n: nat)
    ensures |FileIds(Rep(x, n))| == if x.Some? then n else 0
    decreases n
  {
    if n > 0 {
      RepSplit(x, n);
      assert Rep(x, n)[1..] == Rep(x, n - 1);
      FileIdsRep(x, n - 1);
    }
  }

  /** Every block of a file entry carries that file's id, and only those. */
  lemma {:induction false} FileIdsCount(es: seq<DiskEntry>)
    ensures |FileIds(Blocks(es))| == FileLen(es)
    decreases |es|
  {
    if es != [] {
      FileIdsAppend(EntryBlocks(es[0]), Blocks(es[1..]));
      FileIdsRep(if es[0].File? then Some(es[0].id) else None, es[0].len);
      FileIdsCount(es[1..]);
    }
  }

  // ---------------------------------------------------------------------
  // Part 1: block-wise compaction.

  /** The reference compaction, one block at a time: a leading file block
      stays; a leading free block is filled with the last file block, and
      trailing free blocks are dropped. The result lists the ids of the
      blocks of the compacted disk from position 0. */
  function Compact(b: seq<Option<nat>>): seq<nat>
    decreases |b|
  {
    if b == [] then []
    else if b[0].Some? then [b[0].value] + Compact(b[1..])
    else if |b| == 1 then []
    else if b[|b| - 1].None? then Compact(b[..|b| - 1])
    else [b[|b| - 1].value] + Compact(b[1..|b| - 1])
  }

  /** Compaction moves blocks but never loses or duplicates one: the result
      holds exactly the file blocks of the disk. */
  lemma {:induction false} CompactPermutes(b: seq<Option<nat>>)
    ensures multiset(Compact(b)) == FileIds(b)
    ensures |Compact(b)| == |FileIds(b)|
    decreases |b|
  {
    if b == [] {
    } else if b[0].Some? {
      var c := Compact(b[1..]);
      assert Compact(b) == [b[0].value] + c;
      assert FileIds(b) == multiset{b[0].value} + FileIds(b[1..]);
      CompactPermutes(b[1..]);
      ConsMultiset(b[0].value, c);
    } else if |b| == 1 {
      assert FileIds(b) == FileIds(b[1..]);
    } else {
      var n := |b| - 1;
      GapFrontIds(b);
      if b[n].None? {
        assert Compact(b) == Compact(b[..n]);
        CompactPermutes(b[..n]);
      } else {
        var c := Compact(b[1..n]);
        assert Compact(b) == [b[n].value] + c;
        CompactPermutes(b[1..n]);
        ConsMultiset(b[n].value, c);
      }
    }
  }

  lemma ConsMultiset<T>(x: T, s: seq<T>)
    ensures multiset([x] + s) == multiset{x} + multiset(s)
    ensures |[x] + s| == 1 + |s|
  {
  }

  /** The file ids of a disk that starts with a gap and has at least two
      blocks, split at the last block. */
  lemma GapFrontIds(b: seq<Option<nat>>)
    requires |b| >= 2 && b[0].None?
    ensures b[|b| - 1].None? ==> FileIds(b) == FileIds(b[..|b| - 1])
    ensures b[|b| - 1].Some? ==> FileIds(b) == FileIds(b[1..|b| - 1]) + multiset{b[|b| - 1].value}
  {
    var n := |b| - 1;
    var mid := b[1..n];
    assert b[1..] == mid + [b[n]];
    FileIdsAppend(mid, [b[n]]);
    assert [b[n]][1..] == [];
    assert b[..n][1..] == mid;
  }

  /** The compacted disk is never longer than the original. */
  lemma {:induction false} CompactShorter(b: seq<Option<nat>>)
    ensures |Compact(b)| <= |b|
    decreases |b|
  {
    if b == [] {
    } else if b[0].Some? {
      CompactShorter(b[1..]);
    } else if |b| == 1 {
    } else if b[|b| - 1].None? {
      CompactShorter(b[..|b| - 1]);
    } else {
      CompactShorter(b[1..|b| - 1]);
    }
  }

  /** A file block that lies inside the compacted region was never moved. */
  lemma {:induction false} CompactKeepsPlaced(b: seq<Option<nat>>, i: nat)
    requires i < |Compact(b)|
    requires i < |b| && b[i].Some?
    ensures Compact(b)[i] == b[i].value
    decreases |b|
  {
    if b[0].Some? {
      if i > 0 {
        CompactKeepsPlaced(b[1..], i - 1);
      }
    } else if |b| == 1 {
    } else if b[|b| - 1].None? {
      CompactShorter(b[..|b| - 1]);
      CompactKeepsPlaced(b[..|b| - 1], i);
    } else {
      CompactShorter(b[1..|b| - 1]);
      assert b[1..|b| - 1][i - 1] == b[i];
      CompactKeepsPlaced(b[1..|b| - 1], i - 1);
    }
  }

  lemma EmitStep(id: nat, l: nat, rest: seq<Option<nat>>)
    requires l > 0
    ensures Compact(Rep(Some(id), l) + rest) == [id] + Compact(Rep(Some(id), l - 1) + rest)
  {
    RepSplit(Some(id), l);
    assert (Rep(Some(id), l) + rest)[1..] == Rep(Some(id), l - 1) + rest;
  }

  lemma AppendAssoc<T>(a: seq<T>, b: seq<T>, c: seq<T>)
    ensures (a + b) + c == a + (b + c)
  {
  }

  /** A leading file keeps all its blocks in front. */
  lemma {:induction false} EmitRun(id: nat, l: nat, rest: seq<Option<nat>>)
    ensures Compact(Rep(Some(id), l) + rest) == Rep(id, l) + Compact(rest)
    decreases l
  {
    if l == 0 {
      assert Rep(Some(id), l) + rest == rest;
    } else {
      EmitStep(id, l, rest);
      EmitRun(id, l - 1, rest);
      RepSplit(id, l);
    }
  }

  /** A leading gap of k blocks takes t blocks of a last file of l, for
      any t up to both. */
  lemma {:induction false} TakeRun(k: nat, mid: seq<Option<nat>>, id: nat, l: nat, t: nat)
    requires t <= k && t <= l
    ensures Compact(Rep(Gap, k) + mid + Rep(Some(id), l))
         == Rep(id, t) + Compact(Rep(Gap, k - t) + mid + Rep(Some(id), l - t))
    decreases t
  {
    if t > 0 {
      var rest := Compact(Rep(Gap, k - t) + mid + Rep(Some(id), l - t));
      TakeStep(k, mid, id, l);
      assert k - 1 - (t - 1) == k - t && l - 1 - (t - 1) == l - t;
      TakeRun(k - 1, mid, id, l - 1, t - 1);
      PrependRun(Compact(Rep(Gap, k) + mid + Rep(Some(id), l)),
                 Compact(Rep(Gap, k - 1) + mid + Rep(Some(id), l - 1)), rest, id, t);
    } else {
      assert Rep(id, 0) == [];
    }
  }

  lemma PrependRun(x: seq<nat>, y: seq<nat>, rest: seq<nat>, id: nat, t: nat)
    requires t > 0 && x == [id] + y && y == Rep(id, t - 1) + rest
    ensures x == Rep(id, t) + rest
  {
    RepSplit(id, t);
    AppendAssoc([id], Rep(id, t - 1), rest);
  }

  lemma TakeStep(k: nat, mid: seq<Option<nat>>, id: nat, l: nat)
    requires k > 0 && l > 0
    ensures Compact(Rep(Gap, k) + mid + Rep(Some(id), l))
         == [id] + Compact(Rep(Gap, k - 1) + mid + Rep(Some(id), l - 1))
  {
    var x := Rep(Gap, k) + mid + Rep(Some(id), l);
    RepSplit(Some(id), l);
    RepSplit(Gap, k);
    assert x[0] == None;
    assert x[|x| - 1] == Some(id);
    assert x[1..|x| - 1] == Rep(Gap, k - 1) + mid + Rep(Some(id), l - 1);
  }

  lemma DropStep(k: nat, mid: seq<Option<nat>>)
    requires k > 0
    ensures Compact(Rep(Gap, k) + mid + [Gap]) == Compact(Rep(Gap, k) + mid)
  {
    var x := Rep(Gap, k) + mid + [Gap];
    assert x[0] == None;
    assert x[..|x| - 1] == Rep(Gap, k) + mid;
  }

  /** Free blocks at the end of the disk never receive or give a block. */
  lemma {:induction false} DropFreeRun(k: nat, mid: seq<Option<nat>>, l: nat)
    requires k > 0
    ensures Compact(Rep(Gap, k) + mid + Rep(Gap, l)) == Compact(Rep(Gap, k) + mid)
    decreases l
  {
    if l > 0 {
      RepSplit(Gap, l);
      assert Rep(Gap, k) + mid + Rep(Gap, l) == Rep(Gap, k) + (mid + Rep(Gap, l - 1)) + [Gap];
      DropStep(k, mid + Rep(Gap, l - 1));
      assert Rep(Gap, k) + (mid + Rep(Gap, l - 1)) == Rep(Gap, k) + mid + Rep(Gap, l - 1);
      DropFreeRun(k, mid, l - 1);
    } else {
      assert Rep(Gap, k) + mid + Rep(Gap, l) == Rep(Gap, k) + mid;
    }
  }

  lemma {:induction false} AllFree(k: nat)
    ensures Compact(Rep(Gap, k)) == []
    decreases k
  {
    if k > 1 {
      RepSplit(Gap, k);
      assert Rep(Gap, k)[..k - 1] == Rep(Gap, k - 1);
      AllFree(k - 1);
    }
  }

  /** The sum of position * id over a contiguous run of blocks from 0. */
  function Checksum(ids: seq<nat>): int
  {
    if ids == [] then 0 else Checksum(ids[..|ids| - 1]) + (|ids| - 1) * ids[|ids| - 1]
  }

  lemma ChecksumAppend(ids: seq<nat>, id: nat)
    ensures Checksum(ids + [id]) == Checksum(ids) + |ids| * id
  {
    assert (ids + [id])[..|ids|] == ids;
  }

  /** `part1`: the deque is consumed from the front; a leading file emits
      its blocks, a leading gap is filled from the back by `FillGap`. */
  method Part1(input: string) returns (checksum: int)
    requires AllDigits(input)
    ensures checksum == Checksum(Compact(Blocks(Parse(input))))
  {
    var entries := Parse(input);
    ghost var target := Compact(Blocks(entries));
    ghost var emitted: seq<nat> := [];
    var diskIdx := 0;
    checksum := 0;
    while |entries| > 0
      invariant emitted + Compact(Blocks(entries)) == target
      invariant diskIdx == |emitted| && checksum == Checksum(emitted)
      decreases TotalLen(entries) + |entries|
    {
      var front := entries[0];
      entries := entries[1..];
      ghost var pending := Compact(EntryBlocks(front) + Blocks(entries));
      assert emitted + pending == target;
      match front {
        case File(len, id) =>
          EmitRun(id, len, Blocks(entries));
          ghost var e0 := emitted;
          diskIdx, checksum, emitted := EmitFile(len, id, diskIdx, checksum, emitted);
          AppendAssoc(e0, Rep(id, len), Compact(Blocks(entries)));
        case Free(len) =>
          entries, diskIdx, checksum, emitted := FillGap(entries, len, diskIdx, checksum, emitted);
      }
    }
    assert entries == [];
    assert emitted == target;
  }

  /** The loop of `part1` over a leading file: each block is placed at the
      next disk index. */
  method EmitFile(len: nat, id: nat, diskIdx0: nat, checksum0: int, ghost emitted0: seq<nat>)
    returns (diskIdx: nat, checksum: int, ghost emitted: seq<nat>)
    requires diskIdx0 == |emitted0| && checksum0 == Checksum(emitted0)
    ensures emitted == emitted0 + Rep(id, len)
    ensures diskIdx == |emitted| && checksum == Checksum(emitted)
  {
    diskIdx, checksum, emitted := diskIdx0, checksum0, emitted0;
    var l := len;
    while l > 0
      invariant emitted == emitted0 + Rep(id, len - l)
      invariant diskIdx == |emitted| && checksum == Checksum(emitted)
    {
      ChecksumAppend(emitted, id);
      RepSplit(id, len - l + 1);
      checksum := checksum + diskIdx * id;
      emitted := emitted + [id];
      diskIdx := diskIdx + 1;
      l := l - 1;
    }
  }

  /** The innermost loop of `part1`: blocks of the back file go into the
      gap until one of the two is used up. */
  method TakeFromBack(lenFree0: nat, lenFile0: nat, id: nat, diskIdx0: nat, checksum0: int,
                      ghost emitted0: seq<nat>)
    returns (diskIdx: nat, checksum: int, ghost emitted: seq<nat>, lenFree: nat, lenFile: nat)
    requires diskIdx0 == |emitted0| && checksum0 == Checksum(emitted0)
    ensures var t := if lenFile0 < lenFree0 then lenFile0 else lenFree0;
      emitted == emitted0 + Rep(id, t) && lenFree == lenFree0 - t && lenFile == lenFile0 - t
    ensures diskIdx == |emitted| && checksum == Checksum(emitted)
  {
    diskIdx, checksum, emitted := diskIdx0, checksum0, emitted0;
    lenFree, lenFile := lenFree0, lenFile0;
    while lenFile > 0 && lenFree > 0
      invariant lenFile <= lenFile0 && lenFile0 - lenFile == lenFree0 - lenFree
      invariant emitted == emitted0 + Rep(id, lenFile0 - lenFile)
      invariant diskIdx == |emitted| && checksum == Checksum(emitted)
    {
      ChecksumAppend(emitted, id);
      RepSplit(id, lenFile0 - lenFile + 1);
      checksum := checksum + diskIdx * id;
      emitted := emitted + [id];
      diskIdx := diskIdx + 1;
      lenFile := lenFile - 1;
      lenFree := lenFree - 1;
    }
  }

  /** The back file popped into a gap: its blocks are taken, and if some
      are left the file is pushed back with the same id and the rest. */
  method PlaceBackFile(entries0: seq<DiskEntry>, lenFree0: nat, lenFile0: nat, id: nat,
                       diskIdx0: nat, checksum0: int, ghost emitted0: seq<nat>)
    returns (entries: seq<DiskEntry>, lenFree: nat, diskIdx: nat, checksum: int, ghost emitted: seq<nat>)
    requires lenFree0 > 0
    requires diskIdx0 == |emitted0| && checksum0 == Checksum(emitted0)
    ensures emitted + Compact(Rep(Gap, lenFree) + Blocks(entries))
         == emitted0 + Compact(Rep(Gap, lenFree0) + Blocks(entries0 + [File(lenFile0, id)]))
    ensures TotalLen(entries) + |entries| < TotalLen(entries0) + lenFile0 + |entries0| + 1
    ensures diskIdx == |emitted| && checksum == Checksum(emitted)
  {
    FillFromBack(lenFree0, entries0, id, lenFile0);
    ghost var t := if lenFile0 < lenFree0 then lenFile0 else lenFree0;
    var lenFile;
    diskIdx, checksum, emitted, lenFree, lenFile := TakeFromBack(lenFree0, lenFile0, id, diskIdx0, checksum0, emitted0);
    entries := entries0;
    if lenFile > 0 {
      TotalLenSnoc(entries, File(lenFile, id));
      entries := entries + [File(lenFile, id)];
    }
    AppendAssoc(emitted0, Rep(id, t), Compact(Rep(Gap, lenFree) + Blocks(entries)));
  }

  /** The inner loop of `part1` for a leading gap of `lenFree` blocks: it
      pops entries from the back, drops free ones, and moves blocks of the
      last file into the gap; a file only partly placed is pushed back with
      the same id and the blocks left. */
  method FillGap(entries0: seq<DiskEntry>, lenFree0: nat, diskIdx0: nat, checksum0: int,
                 ghost emitted0: seq<nat>)
    returns (entries: seq<DiskEntry>, diskIdx: nat, checksum: int, ghost emitted: seq<nat>)
    requires diskIdx0 == |emitted0| && checksum0 == Checksum(emitted0)
    ensures emitted + Compact(Blocks(entries)) == emitted0 + Compact(Rep(Gap, lenFree0) + Blocks(entries0))
    ensures diskIdx == |emitted| && checksum == Checksum(emitted)
    ensures TotalLen(entries) + |entries| <= TotalLen(entries0) + |entries0|
  {
    entries, diskIdx, checksum, emitted := entries0, diskIdx0, checksum0, emitted0;
    ghost var target := emitted0 + Compact(Rep(Gap, lenFree0) + Blocks(entries0));
    var lenFree := lenFree0;
    // The `None => break` arm of the pop is the second conjunct.
    while lenFree > 0 && |entries| > 0
      invariant emitted + Compact(Rep(Gap, lenFree) + Blocks(entries)) == target
      invariant diskIdx == |emitted| && checksum == Checksum(emitted)
      invariant TotalLen(entries) + |entries| <= TotalLen(entries0) + |entries0|
      decreases TotalLen(entries) + |entries|
    {
      entries, lenFree, diskIdx, checksum, emitted := PopBack(entries, lenFree, diskIdx, checksum, emitted);
    }
    GapFilled(lenFree, entries);
  }

  /** A gap with nothing left behind it, or no gap left, adds nothing. */
  lemma GapFilled(k: nat, es: seq<DiskEntry>)
    requires k == 0 || es == []
    ensures Compact(Rep(Gap, k) + Blocks(es)) == Compact(Blocks(es))
  {
    if k > 0 {
      AllFree(k);
      assert Rep(Gap, k) + Blocks(es) == Rep(Gap, k);
    } else {
      assert Rep(Gap, k) + Blocks(es) == Blocks(es);
    }
  }

  /** One pop from the back into a leading gap: a free entry is dropped,
      a file gives blocks to the gap. */
  method PopBack(entries0: seq<DiskEntry>, lenFree0: nat, diskIdx0: nat, checksum0: int,
                 ghost emitted0: seq<nat>)
    returns (entries: seq<DiskEntry>, lenFree: nat, diskIdx: nat, checksum: int, ghost emitted: seq<nat>)
    requires lenFree0 > 0 && |entries0| > 0
    requires diskIdx0 == |emitted0| && checksum0 == Checksum(emitted0)
    ensures emitted + Compact(Rep(Gap, lenFree) + Blocks(entries))
         == emitted0 + Compact(Rep(Gap, lenFree0) + Blocks(entries0))
    ensures diskIdx == |emitted| && checksum == Checksum(emitted)
    ensures TotalLen(entries) + |entries| < TotalLen(entries0) + |entries0|
  {
    var back := entries0[|entries0| - 1];
    var front := entries0[..|entries0| - 1];
    assert entries0 == front + [back];
    TotalLenSnoc(front, back);
    match back {
      case Free(l) =>
        DropBackGap(lenFree0, front, l);
        entries, lenFree, diskIdx, checksum, emitted := front, lenFree0, diskIdx0, checksum0, emitted0;
      case File(lenFile, id) =>
        entries, lenFree, diskIdx, checksum, emitted :=
          PlaceBackFile(front, lenFree0, lenFile, id, diskIdx0, checksum0, emitted0);
    }
  }

  lemma TotalLenSnoc(es: seq<DiskEntry>, e: DiskEntry)
    ensures TotalLen(es + [e]) == TotalLen(es) + e.len
  {
    BlocksAppend(es, [e]);
    assert [e][1..] == [];
  }

  /** A free entry at the back adds nothing to a leading gap's fill. */
  lemma DropBackGap(k: nat, es: seq<DiskEntry>, l: nat)
    requires k > 0
    ensures Compact(Rep(Gap, k) + Blocks(es + [Free(l)])) == Compact(Rep(Gap, k) + Blocks(es))
  {
    BlocksLast(es + [Free(l)]);
    assert (es + [Free(l)])[..|es|] == es;
    assert Rep(Gap, k) + Blocks(es + [Free(l)]) == Rep(Gap, k) + Blocks(es) + Rep(Gap, l);
    DropFreeRun(k, Blocks(es), l);
  }

  /** A leading gap of k blocks takes t = min(k, l) blocks of the back file
      of l blocks; what is left of the file stays at the back. */
  lemma FillFromBack(k: nat, es: seq<DiskEntry>, id: nat, l: nat)
    ensures var t := if l < k then l else k;
      var rest := if l - t > 0 then es + [File(l - t, id)] else es;
      Compact(Rep(Gap, k) + Blocks(es + [File(l, id)]))
        == Rep(id, t) + Compact(Rep(Gap, k - t) + Blocks(rest))
  {
    var t := if l < k then l else k;
    GapThenFile(k, es, id, l);
    TakeRun(k, Blocks(es), id, l, t);
    if l - t > 0 {
      GapThenFile(k - t, es, id, l - t);
    } else {
      assert Rep(Some(id), 0) == [];
      assert Rep(Gap, k - t) + Blocks(es) + Rep(Some(id), l - t) == Rep(Gap, k - t) + Blocks(es);
    }
  }

  /** The blocks after a leading gap, with one more file at the back. */
  lemma GapThenFile(k: nat, es: seq<DiskEntry>, id: nat, l: nat)
    ensures Rep(Gap, k) + Blocks(es + [File(l, id)]) == Rep(Gap, k) + Blocks(es) + Rep(Some(id), l)
  {
    BlocksLast(es + [File(l, id)]);
    assert (es + [File(l, id)])[..|es|] == es;
  }

  /** `part1` places every file block exactly once: its final disk index is
      the total length of all files. */
  lemma Part1EmitsEveryBlock(input: string)
    requires AllDigits(input)
    ensures |Compact(Blocks(Parse(input)))| == FileLen(Parse(input))
    ensures multiset(Compact(Blocks(Parse(input)))) == FileIds(Blocks(Parse(input)))
  {
    CompactPermutes(Blocks(Parse(input)));
    FileIdsCount(Parse(input));
  }

  // ---------------------------------------------------------------------
  // Part 2: whole-file moves.

  predicate Fits(e: DiskEntry, len: nat)
  {
    e.Free? && e.len >= len
  }

  /** `position`: the first free entry with room for `len` blocks. */
  function FirstFit(es: seq<DiskEntry>, len: nat): (r: Option<nat>)
    ensures r.Some? ==> r.value < |es| && Fits(es[r.value], len)
    ensures r.Some? ==> forall j :: 0 <= j < r.value ==> !Fits(es[j], len)
    ensures r.None? ==> forall j :: 0 <= j < |es| ==> !Fits(es[j], len)
  {
    if es == [] then None
    else if Fits(es[0], len) then Some(0)
    else match FirstFit(es[1..], len)
      case Some(i) => assert forall j :: 1 <= j < i + 1 ==> es[j] == es[1..][j - 1]; Some(i + 1)
      case None => assert forall j :: 1 <= j < |es| ==> es[j] == es[1..][j - 1]; None
  }

  /** The file is inserted before the gap, and the gap shrinks by exactly
      the file's length. */
  function Place(es: seq<DiskEntry>, i: nat, f: DiskEntry): (r: seq<DiskEntry>)
    requires i < |es| && Fits(es[i], f.len)
  {
    es[..i] + [f, Free(es[i].len - f.len)] + es[i + 1..]
  }

  /** Placing a file changes nothing but the gap it lands in: the entries
      before it stay, the file and the shrunk gap follow, then the rest. */
  lemma PlaceShape(es: seq<DiskEntry>, i: nat, f: DiskEntry)
    requires i < |es| && Fits(es[i], f.len)
    ensures |Place(es, i, f)| == |es| + 1
    ensures Place(es, i, f)[..i] == es[..i]
    ensures Place(es, i, f)[i] == f && Place(es, i, f)[i + 1] == Free(es[i].len - f.len)
    ensures Place(es, i, f)[i + 2..] == es[i + 1..]
  {
  }

  /** The disk keeps its length, the gap giving up exactly the file's
      blocks, and it gains exactly that file. */
  lemma PlaceConserves(es: seq<DiskEntry>, i: nat, f: DiskEntry)
    requires i < |es| && Fits(es[i], f.len)
    ensures TotalLen(Place(es, i, f)) == TotalLen(es)
    ensures FilesOf(Place(es, i, f)) == FilesOf(es) + FilesOf([f])
  {
    var g := Free(es[i].len - f.len);
    var before, after := es[..i], es[i + 1..];
    PairConserves(f, g);
    SingleConserves(es[i]);
    DecomposeAt(es, i);
    SplitConserves(Place(es, i, f), before, [f, g], after);
    assert TotalLen(es) == TotalLen(before) + es[i].len + TotalLen(after);
    assert TotalLen(Place(es, i, f)) == TotalLen(before) + (f.len + g.len) + TotalLen(after);
    assert FilesOf(es) == FilesOf(before) + FilesOf(after);
  }

  lemma SplitAround<T>(s: seq<T>, i: nat)
    requires i < |s|
    ensures s == s[..i] + [s[i]] + s[i + 1..]
  {
  }

  lemma DecomposeAt(es: seq<DiskEntry>, i: nat)
    requires i < |es|
    ensures TotalLen(es) == TotalLen(es[..i]) + TotalLen([es[i]]) + TotalLen(es[i + 1..])
    ensures FilesOf(es) == FilesOf(es[..i]) + FilesOf([es[i]]) + FilesOf(es[i + 1..])
  {
    SplitAround(es, i);
    SplitConserves(es, es[..i], [es[i]], es[i + 1..]);
  }

  lemma SingleConserves(e: DiskEntry)
    requires e.Free?
    ensures TotalLen([e]) == e.len && FilesOf([e]) == multiset{}
  {
    assert [e][1..] == [];
  }

  lemma PairConserves(f: DiskEntry, g: DiskEntry)
    requires g.Free?
    ensures TotalLen([f, g]) == f.len + g.len
    ensures FilesOf([f, g]) == FilesOf([f])
  {
    assert [f, g][1..] == [g];
    assert [g][1..] == [];
    assert [f][1..] == [];
    assert TotalLen([g]) == g.len;
    assert FilesOf([g]) == multiset{};
  }

  lemma SplitConserves(whole: seq<DiskEntry>, a: seq<DiskEntry>, b: seq<DiskEntry>, c: seq<DiskEntry>)
    requires whole == a + b + c
    ensures TotalLen(whole) == TotalLen(a) + TotalLen(b) + TotalLen(c)
    ensures FilesOf(whole) == FilesOf(a) + FilesOf(b) + FilesOf(c)
  {
    BlocksAppend(a + b, c);
    BlocksAppend(a, b);
    FilesOfAppend(a + b, c);
    FilesOfAppend(a, b);
  }

  /** The file entries, with multiplicity. */
  function FilesOf(es: seq<DiskEntry>): multiset<DiskEntry>
  {
    if es == [] then multiset{}
    else (if es[0].File? then multiset{es[0]} else multiset{}) + FilesOf(es[1..])
  }

  lemma {:induction false} FilesOfAppend(a: seq<DiskEntry>, b: seq<DiskEntry>)
    ensures FilesOf(a + b) == FilesOf(a) + FilesOf(b)
    decreases |a|
  {
    if a == [] {
      assert a + b == b;
    } else {
      assert (a + b)[1..] == a[1..] + b;
      FilesOfAppend(a[1..], b);
    }
  }

  lemma FilesOfLast(es: seq<DiskEntry>)
    requires es != []
    ensures FilesOf(es) == FilesOf(es[..|es| - 1]) + FilesOf([es[|es| - 1]])
  {
    assert es == es[..|es| - 1] + [es[|es| - 1]];
    FilesOfAppend(es[..|es| - 1], [es[|es| - 1]]);
  }

  /** A file that some earlier gap could hold: only these can still move. */
  predicate MovableAt(es: seq<DiskEntry>, j: int)
  {
    0 <= j < |es| && es[j].File? && exists k :: 0 <= k < j && Fits(es[k], es[j].len)
  }

  ghost function Movable(es: seq<DiskEntry>): set<int>
  {
    set j | 0 <= j < |es| && MovableAt(es, j)
  }

  /** The index an entry after `i + 1` had before the file was inserted at `i`. */
  function Unshifted(i: int, j: int): int
  {
    if j < i then j else j - 1
  }

  function Unshift(i: int): int -> int
  {
    j => Unshifted(i, j)
  }

  lemma PlaceIndex(rest: seq<DiskEntry>, i: nat, f: DiskEntry, k: int)
    requires i < |rest| && Fits(rest[i], f.len)
    requires 0 <= k <= |rest|
    ensures Place(rest, i, f)[k] ==
      if k < i then rest[k]
      else if k == i then f
      else if k == i + 1 then Free(rest[i].len - f.len)
      else rest[k - 1]
  {
  }

  /** A movable entry after placing `f` at `i` was a movable entry before,
      at the index it had then. */
  lemma MovableBefore(rest: seq<DiskEntry>, i: nat, f: DiskEntry, j: int)
    requires f.File? && FirstFit(rest, f.len) == Some(i)
    requires MovableAt(Place(rest, i, f), j)
    ensures j != i && j != i + 1
    ensures Unshifted(i, j) < |rest| && MovableAt(rest + [f], Unshifted(i, j))
  {
    var r := Place(rest, i, f);
    var k :| 0 <= k < j && Fits(r[k], r[j].len);
    PlaceIndex(rest, i, f, j);
    PlaceIndex(rest, i, f, k);
    var w := if k < i then k else if k == i + 1 then i else k - 1;
    PlacedFits(rest, i, f, k, r[j].len);
    ShiftedBack(rest, f, Unshifted(i, j), w, r[j]);
  }

  /** A gap of the placed layout that holds `len` blocks held them before,
      at its old index; the file itself is no gap. */
  lemma PlacedFits(rest: seq<DiskEntry>, i: nat, f: DiskEntry, k: int, len: nat)
    requires f.File? && i < |rest| && Fits(rest[i], f.len)
    requires 0 <= k <= |rest| && Fits(Place(rest, i, f)[k], len)
    ensures k != i
    ensures var w := if k < i then k else if k == i + 1 then i else k - 1;
      w < |rest| && Fits(rest[w], len)
  {
    PlaceIndex(rest, i, f, k);
  }

  /** Indices below the appended file keep their entries. */
  lemma ShiftedBack(rest: seq<DiskEntry>, f: DiskEntry, u: int, w: int, e: DiskEntry)
    requires 0 <= w < u < |rest| && rest[u] == e && e.File? && Fits(rest[w], e.len)
    ensures MovableAt(rest + [f], u)
  {
    var es := rest + [f];
    assert es[u] == e && es[w] == rest[w];
  }

  /** Moving the last file into its first fitting gap leaves fewer movable
      files: the moved file has no fitting gap before it, and the gap it
      used only shrank. This is what makes part 2's loop terminate. */
  lemma MoveShrinks(rest: seq<DiskEntry>, i: nat, f: DiskEntry)
    requires f.File? && FirstFit(rest, f.len) == Some(i)
    ensures |Movable(Place(rest, i, f))| < |Movable(rest + [f])|
  {
    var es := rest + [f];
    var n := |rest|;
    var s := Movable(es);
    var s' := Movable(Place(rest, i, f));
    var u := Unshift(i);
    assert MovableAt(es, n) by {
      assert es[n] == f && es[i] == rest[i];
    }
    forall j | j in s'
      ensures u(j) in s - {n}
    {
      MovableBefore(rest, i, f, j);
    }
    forall a, b | a in s' && b in s' && u(a) == u(b)
      ensures a == b
    {
      MovableBefore(rest, i, f, a);
      MovableBefore(rest, i, f, b);
    }
    var t := ImageCard(s', u);
    SubsetCard(t, s - {n});
    assert |s - {n}| == |s| - 1;
  }

  /** `part2` as a function of the remaining entries: the tail it builds
      from the back. A free entry, or a file no earlier gap can hold, goes to
      the tail as it is; a file that fits is placed and leaves a gap of its
      own length in the tail. */
  function Defragment(es: seq<DiskEntry>): seq<DiskEntry>
    decreases |es|, |Movable(es)|
  {
    if es == [] then []
    else
      var rest := es[..|es| - 1];
      var last := es[|es| - 1];
      assert es == rest + [last];
      match last
      case Free(_) => Defragment(rest) + [last]
      case File(len, _) =>
        match FirstFit(rest, len)
        case None => Defragment(rest) + [last]
        case Some(i) =>
          MoveShrinks(rest, i, last);
          Defragment(Place(rest, i, last)) + [Free(len)]
  }

  /** One step of the loop: the entry popped from the back decides what the
      tail gains and what remains. */
  lemma DefragmentSnoc(rest: seq<DiskEntry>, e: DiskEntry)
    ensures Defragment(rest + [e]) ==
      if e.Free? || FirstFit(rest, e.len).None? then Defragment(rest) + [e]
      else Defragment(Place(rest, FirstFit(rest, e.len).value, e)) + [Free(e.len)]
  {
    var es := rest + [e];
    assert es[..|es| - 1] == rest;
  }

  /** Shrinking the gap in place and inserting the file before it is `Place`. */
  lemma ShrinkInsert(es: seq<DiskEntry>, i: nat, f: DiskEntry)
    requires i < |es| && Fits(es[i], f.len)
    ensures var shrunk := es[i := Free(es[i].len - f.len)];
      shrunk[..i] + [f] + shrunk[i..] == Place(es, i, f)
  {
    var shrunk := es[i := Free(es[i].len - f.len)];
    assert shrunk[..i] == es[..i];
    assert shrunk[i..] == [Free(es[i].len - f.len)] + es[i + 1..];
  }

  /** Defragmenting keeps the disk's length and its files. */
  lemma {:induction false} DefragmentConserves(es: seq<DiskEntry>)
    ensures TotalLen(Defragment(es)) == TotalLen(es)
    ensures FilesOf(Defragment(es)) == FilesOf(es)
    decreases |es|, |Movable(es)|
  {
    if es != [] {
      var rest := es[..|es| - 1];
      var last := es[|es| - 1];
      SplitConserves(es, rest, [last], []);
      assert es == rest + [last] + [];
      assert es == rest + [last];
      if last.Free? || FirstFit(rest, last.len).None? {
        assert Defragment(es) == Defragment(rest) + [last] + [];
        DefragmentConserves(rest);
        SplitConserves(Defragment(es), Defragment(rest), [last], []);
      } else {
        var i := FirstFit(rest, last.len).value;
        var placed := Place(rest, i, last);
        assert Defragment(es) == Defragment(placed) + [Free(last.len)] + [];
        MoveShrinks(rest, i, last);
        PlaceShape(rest, i, last);
        PlaceConserves(rest, i, last);
        DefragmentConserves(placed);
        SplitConserves(Defragment(es), Defragment(placed), [Free(last.len)], []);
        PairConserves(last, Free(last.len));
        assert [Free(last.len)][1..] == [];
      }
    }
  }

  /** A last file that no gap can hold stays where it is: it starts at the
      same block in the result as before. A last file that moves leaves a
      gap of its own length at its old place. */
  lemma DefragmentLast(es: seq<DiskEntry>)
    requires es != [] && es[|es| - 1].File?
    ensures var rest := es[..|es| - 1];
            var f := es[|es| - 1];
            FirstFit(rest, f.len).None? ==>
              Defragment(es) == Defragment(rest) + [f] &&
              TotalLen(Defragment(rest)) == TotalLen(rest)
    ensures var rest := es[..|es| - 1];
            var f := es[|es| - 1];
            FirstFit(rest, f.len).Some? ==>
              Defragment(es)[|Defragment(es)| - 1] == Free(f.len)
  {
    DefragmentConserves(es[..|es| - 1]);
  }

  // ---------------------------------------------------------------------
  // The checksum fold over the tail.

  /** Sum of i * id for i in from .. from + len. */
  function RangeSum(from: nat, len: nat, id: nat): int
    decreases len
  {
    if len == 0 then 0 else from * id + RangeSum(from + 1, len - 1, id)
  }

  /** The fold over the tail: (disk index, checksum). */
  function TailFold(tail: seq<DiskEntry>, diskIndex: nat, checksum: int): (nat, int)
  {
    if tail == [] then (diskIndex, checksum)
    else match tail[0]
      case Free(len) => TailFold(tail[1..], diskIndex + len, checksum)
      case File(len, id) => TailFold(tail[1..], diskIndex + len, checksum + RangeSum(diskIndex, len, id))
  }

  /** The sum of position * id over the file blocks, positions from `start`. */
  function BlockSum(b: seq<Option<nat>>, start: nat): int
  {
    if b == [] then 0
    else (if b[0].Some? then start * b[0].value else 0) + BlockSum(b[1..], start + 1)
  }

  lemma {:induction false} BlockSumAppend(a: seq<Option<nat>>, b: seq<Option<nat>>, start: nat)
    ensures BlockSum(a + b, start) == BlockSum(a, start) + BlockSum(b, start + |a|)
    decreases |a|
  {
    if a == [] {
      assert a + b == b;
    } else {
      assert (a + b)[1..] == a[1..] + b;
      BlockSumAppend(a[1..], b, start + 1);
    }
  }

  lemma {:induction false} BlockSumRep(x: Option<nat>, n: nat, start: nat)
    ensures BlockSum(Rep(x, n), start) == if x.Some? then RangeSum(start, n, x.value) else 0
    decreases n
  {
    if n > 0 {
      RepSplit(x, n);
      assert Rep(x, n)[1..] == Rep(x, n - 1);
      BlockSumRep(x, n - 1, start + 1);
    }
  }

  /** The run-length fold computes the block-wise checksum and ends at the
      disk's length. */
  lemma {:induction false} TailFoldIsBlockSum(tail: seq<DiskEntry>, diskIndex: nat, checksum: int)
    ensures TailFold(tail, diskIndex, checksum).1 == checksum + BlockSum(Blocks(tail), diskIndex)
    ensures TailFold(tail, diskIndex, checksum).0 == diskIndex + TotalLen(tail)
    decreases |tail|
  {
    if tail != [] {
      var e := tail[0];
      BlockSumAppend(EntryBlocks(e), Blocks(tail[1..]), diskIndex);
      BlockSumRep(if e.File? then Some(e.id) else None, e.len, diskIndex);
      TailFoldIsBlockSum(tail[1..], diskIndex + e.len,
        if e.File? then checksum + RangeSum(diskIndex, e.len, e.id) else checksum);
    }
  }

  /** `part2`: entries are popped from the back; a file moves into the first
      gap that holds it, and the tail collects the final layout. */
  method Part2(input: string) returns (checksum: int)
    requires AllDigits(input)
    ensures checksum == BlockSum(Blocks(Defragment(Parse(input))), 0)
  {
    var entries := Parse(input);
    ghost var target := Defragment(entries);
    var tail: seq<DiskEntry> := [];
    while |entries| > 0
      invariant Defragment(entries) + tail == target
      decreases |entries|, |Movable(entries)|
    {
      entries, tail := PopEntry(entries, tail);
    }
    assert entries == [];
    assert tail == target;
    TailFoldIsBlockSum(tail, 0, 0);
    checksum := TailFold(tail, 0, 0).1;
  }

  /** One iteration of `part2`'s loop: the entry popped from the back goes
      to the tail, or the file moves into its first fitting gap and leaves a
      gap of its length in the tail. */
  method PopEntry(entries0: seq<DiskEntry>, tail0: seq<DiskEntry>) returns (entries: seq<DiskEntry>, tail: seq<DiskEntry>)
    requires |entries0| > 0
    ensures Defragment(entries) + tail == Defragment(entries0) + tail0
    ensures |entries| < |entries0| || (|entries| == |entries0| && |Movable(entries)| < |Movable(entries0)|)
  {
    var back := entries0[|entries0| - 1];
    entries := entries0[..|entries0| - 1];
    SnocLast(entries0);
    match back {
      case Free(len) =>
        tail := [Free(len)] + tail0;
        assert |entries| < |entries0|;
        PopKeeps(entries, back, tail0);
      case File(lenFile, id) =>
        match FirstFit(entries, lenFile) {
          case Some(freeIdx) =>
            ghost var rest := entries;
            ShrinkInsert(entries, freeIdx, back);
            entries := entries[freeIdx := Free(entries[freeIdx].len - lenFile)];
            entries := entries[..freeIdx] + [File(lenFile, id)] + entries[freeIdx..];
            tail := [Free(lenFile)] + tail0;
            assert entries == Place(rest, freeIdx, back);
            PopMoves(rest, back, freeIdx, tail0);
          case None =>
            tail := [File(lenFile, id)] + tail0;
            assert |entries| < |entries0|;
            PopKeeps(entries, back, tail0);
        }
    }
  }

  lemma SnocLast<T>(s: seq<T>)
    requires |s| > 0
    ensures s == s[..|s| - 1] + [s[|s| - 1]]
  {
  }

  /** A free entry, or a file with no fitting gap, stays at the back. */
  lemma PopKeeps(rest: seq<DiskEntry>, e: DiskEntry, tail: seq<DiskEntry>)
    requires e.Free? || FirstFit(rest, e.len).None?
    ensures Defragment(rest) + ([e] + tail) == Defragment(rest + [e]) + tail
  {
    DefragmentSnoc(rest, e);
    AppendAssoc(Defragment(rest), [e], tail);
  }

  /** A file with a fitting gap moves there; fewer files can still move. */
  lemma PopMoves(rest: seq<DiskEntry>, e: DiskEntry, i: nat, tail: seq<DiskEntry>)
    requires e.File? && FirstFit(rest, e.len) == Some(i)
    ensures Defragment(Place(rest, i, e)) + ([Free(e.len)] + tail) == Defragment(rest + [e]) + tail
    ensures |Place(rest, i, e)| == |rest + [e]|
    ensures |Movable(Place(rest, i, e))| < |Movable(rest + [e])|
  {
    DefragmentSnoc(rest, e);
    MoveShrinks(rest, i, e);
    PlaceShape(rest, i, e);
    AppendAssoc(Defragment(Place(rest, i, e)), [Free(e.len)], tail);
  }

  /** Whole-file moves keep the disk's length and every file. */
  lemma Part2Conserves(input: string)
    requires AllDigits(input)
    ensures TotalLen(Defragment(Parse(input))) == TotalLen(Parse(input))
    ensures FilesOf(Defragment(Parse(input))) == FilesOf(Parse(input))
  {
    DefragmentConserves(Parse(input));
  }
}
