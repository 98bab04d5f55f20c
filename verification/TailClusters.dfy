/** Moving clusters out of a volume's tail before shrinking it: the chunked free-cluster scanner and the
    per-file relocation loop. */
module TailClusters {
  import opened Bytes
  import opened Errors

  const BITMAP_CAPACITY := 65536 - 16   // bitmap bytes per query
  const EXTENTS_PER_QUERY := 255
  const MAX_ATTEMPTS := 1024

  // ---- bitmaps ----

  function Bit(b: bv8, j: nat): bool
    requires j < 8
  {
    b & (match j
         case 0 => 1 case 1 => 2 case 2 => 4 case 3 => 8
         case 4 => 16 case 5 => 32 case 6 => 64 case _ => 128) != 0
  }

  /** Out of range counts as used. */
  predicate BitIsSet(bitmap: Bytes, index: nat) {
    index / 8 >= |bitmap| || Bit(bitmap[index / 8], index % 8)
  }

  function Pack(x: seq<bool>): bv8
    requires |x| == 8
  {
    Flag(x[0], 1) | Flag(x[1], 2) | Flag(x[2], 4) | Flag(x[3], 8)
    | Flag(x[4], 16) | Flag(x[5], 32) | Flag(x[6], 64) | Flag(x[7], 128)
  }

  lemma PackedBit(x: seq<bool>, j: nat)
    requires |x| == 8 && j < 8
    ensures Bit(Pack(x), j) == x[j]
  {
    match j
    case 0 => case 1 => case 2 => case 3 => case 4 => case 5 => case 6 => case 7 =>
  }

  /** Bytes `at` to `at + 8`, false past the end. */
  function Eight(used: seq<bool>, at: nat): (x: seq<bool>)
    ensures |x| == 8
  {
    seq(8, j requires 0 <= j < 8 => at + j < |used| && used[at + j])
  }

  /** What the file system returns for a query at `lcn`: from the byte that holds it, up to the buffer's size. */
  function BitmapBytes(used: seq<bool>, lcn: nat): nat
    requires lcn < |used|
  {
    var left := |used| - (lcn - lcn % 8);
    if (left + 7) / 8 < BITMAP_CAPACITY then (left + 7) / 8 else BITMAP_CAPACITY
  }

  function BitmapFrom(used: seq<bool>, lcn: nat): (b: Bytes)
    requires lcn < |used|
    ensures |b| == BitmapBytes(used, lcn)
  {
    seq(BitmapBytes(used, lcn), k requires 0 <= k < BitmapBytes(used, lcn) => Pack(Eight(used, lcn - lcn % 8 + 8 * k)))
  }

  function ChunkStart(lcn: nat): nat { lcn - lcn % 8 }

  function ChunkSize(used: seq<bool>, lcn: nat): nat
    requires lcn < |used|
  {
    var bits := 8 * BitmapBytes(used, lcn);
    if bits < |used| - ChunkStart(lcn) then bits else |used| - ChunkStart(lcn)
  }

  /** A chunk answers for its own clusters exactly, and covers the one asked for. */
  lemma ChunkBits(used: seq<bool>, lcn: nat, i: nat)
    requires lcn < |used| && i < ChunkSize(used, lcn)
    ensures BitIsSet(BitmapFrom(used, lcn), i) == used[ChunkStart(lcn) + i]
  {
    hide Pack, Bit;
    var x := Eight(used, ChunkStart(lcn) + 8 * (i / 8));
    PackedBit(x, i % 8);
    assert 8 * (i / 8) + i % 8 == i;
  }

  lemma ChunkCovers(used: seq<bool>, lcn: nat)
    requires lcn < |used|
    ensures ChunkStart(lcn) <= lcn < ChunkStart(lcn) + ChunkSize(used, lcn)
  {
  }

  // ---- the naive scan ----

  /** Free clusters from `i` on, below `t`, in order. */
  function FreeFrom(used: seq<bool>, i: nat, t: int): seq<nat>
    requires t <= |used|
    decreases t - i
  {
    if i >= t then [] else if used[i] then FreeFrom(used, i + 1, t) else [i] + FreeFrom(used, i + 1, t)
  }

  /** They are strictly increasing and exactly the free ones. */
  lemma {:induction false} FreeFromExact(used: seq<bool>, i: nat, t: int)
    requires t <= |used|
    ensures var f := FreeFrom(used, i, t);
            && (forall a, b :: 0 <= a < b < |f| ==> f[a] < f[b])
            && (forall x :: x in f <==> i <= x < t && !used[x])
    decreases t - i
  {
    if i < t {
      FreeFromExact(used, i + 1, t);
      var f, g := FreeFrom(used, i, t), FreeFrom(used, i + 1, t);
      if !used[i] {
        forall a, b | 0 <= a < b < |f|
          ensures f[a] < f[b]
        {
          assert f[b] == g[b - 1] && g[b - 1] in g;
        }
        forall x
          ensures x in f <==> i <= x < t && !used[x]
        {
          assert x in f <==> x == i || x in g;
        }
      }
    }
  }

  /** Changes outside the part still to scan do not matter. */
  lemma {:induction false} FreeFromLocal(used: seq<bool>, used': seq<bool>, i: nat, t: int)
    requires |used| == |used'| && t <= |used| && forall x :: i <= x < t ==> used[x] == used'[x]
    ensures FreeFrom(used, i, t) == FreeFrom(used', i, t)
    decreases t - i
  {
    if i < t {
      FreeFromLocal(used, used', i + 1, t);
    }
  }

  // ---- files ----

  /** `nextVcn` is the first cluster number after the run; a negative `lcn` is a hole. */
  datatype Extent = Extent(nextVcn: nat, lcn: int)

  predicate Follows(a: int, b: int) {
    if a < 0 then b < 0 else b == a + 1
  }

  function RunEnd(c: seq<int>, v: nat): (e: nat)
    requires v < |c|
    ensures v < e <= |c|
    decreases |c| - v
  {
    if v + 1 < |c| && Follows(c[v], c[v + 1]) then RunEnd(c, v + 1) else v + 1
  }

  lemma {:induction false} RunContents(c: seq<int>, v: nat, k: nat)
    requires v < |c| && v <= k < RunEnd(c, v)
    ensures if c[v] < 0 then c[k] < 0 else c[k] == c[v] + (k - v)
    decreases k - v
  {
    if v < k {
      RunContents(c, v + 1, k);
    }
  }

  /** Up to `n` runs from `v` on. */
  function Extents(c: seq<int>, v: nat, n: nat): (es: seq<Extent>)
    requires v <= |c|
    ensures |es| <= n
    ensures v < |c| && n > 0 ==> es != []
    decreases n
  {
    if n == 0 || v == |c| then [] else [Extent(RunEnd(c, v), c[v])] + Extents(c, RunEnd(c, v), n - 1)
  }

  /** A cluster in the part to be cut off. */
  predicate Tail(x: int, t: int) { x >= 0 && x >= t }

  function TailCount(c: seq<int>, t: int): nat {
    if c == [] then 0 else TailCount(c[..|c| - 1], t) + if Tail(c[|c| - 1], t) then 1 else 0
  }

  /** Replacing one tail cluster by one below the threshold lowers the count by one. */
  lemma {:induction false} TailCountDrops(c: seq<int>, t: int, v: nat, x: int)
    requires v < |c| && Tail(c[v], t) && !Tail(x, t)
    ensures TailCount(c[v := x], t) == TailCount(c, t) - 1
    decreases |c|
  {
    var n := |c| - 1;
    if v < n {
      TailCountDrops(c[..n], t, v, x);
      assert c[v := x][..n] == c[..n][v := x];
    } else {
      assert c[v := x][..n] == c[..n];
    }
  }

  lemma {:induction false} TailCountZero(c: seq<int>, t: int)
    ensures TailCount(c, t) == 0 <==> forall v :: 0 <= v < |c| ==> !Tail(c[v], t)
    decreases |c|
  {
    if c != [] {
      var n := |c| - 1;
      TailCountZero(c[..n], t);
      assert forall v :: 0 <= v < n ==> c[..n][v] == c[v];
    }
  }

  /** `refuses` says which of its queries the file system fails, by number. */
  class File {
    var clusters: seq<int>
    var queries: nat
    const refuses: nat -> bool

    constructor (clusters: seq<int>, refuses: nat -> bool)
      ensures this.clusters == clusters && this.refuses == refuses && queries == 0
    {
      this.clusters, this.refuses, queries := clusters, refuses, 0;
    }

    ghost predicate Answers()
      reads this`queries
    {
      forall n :: n >= queries ==> !refuses(n)
    }

    /** FSCTL_GET_RETRIEVAL_POINTERS: one buffer of runs, and whether more follow. It may fail for any reason, and
        does past the end. */
    method GetRetrievalPointers(vcn: nat) returns (r: Option<(seq<Extent>, bool)>)
      modifies this`queries
      ensures queries == old(queries) + 1
      ensures r.None? <==> refuses(old(queries)) || vcn >= |clusters|
      ensures r.Some? ==> r.value.0 == Extents(clusters, vcn, EXTENTS_PER_QUERY)
      ensures r.Some? ==> (r.value.1 <==> EndOf(clusters, vcn, EXTENTS_PER_QUERY) < |clusters|)
    {
      queries := queries + 1;
      if refuses(queries - 1) || vcn >= |clusters| {
        return None;
      }
      r := Some((Extents(clusters, vcn, EXTENTS_PER_QUERY), EndOf(clusters, vcn, EXTENTS_PER_QUERY) < |clusters|));
    }
  }

  /** Where the first `n` runs from `v` on end. */
  function EndOf(c: seq<int>, v: nat, n: nat): (e: nat)
    requires v <= |c|
    ensures v <= e <= |c| && (n > 0 && v < |c| ==> v < e)
    decreases n
  {
    if n == 0 || v == |c| then v else EndOf(c, RunEnd(c, v), n - 1)
  }

  // ---- the volume ----

  datatype BitmapReply = BitmapFailed | ShortReply | Bitmap(first: nat, size: nat, bytes: Bytes)

  /** What becomes of a bitmap query. */
  datatype Fate = Answered | Refused | Truncated

  /** `refuses` says which moves the file system fails, `fate` what becomes of its bitmap queries, by number. */
  class Volume {
    var used: seq<bool>
    var moves: nat
    var queries: nat
    const refuses: nat -> bool
    const fate: nat -> Fate

    constructor (used: seq<bool>, refuses: nat -> bool, fate: nat -> Fate)
      ensures this.used == used && this.refuses == refuses && this.fate == fate && moves == queries == 0
    {
      this.used, this.refuses, this.fate, moves, queries := used, refuses, fate, 0, 0;
    }

    ghost predicate Answers()
      reads this`queries
    {
      forall n :: n >= queries ==> fate(n) == Answered
    }

    ghost predicate Obeys()
      reads this`moves
    {
      forall n :: n >= moves ==> !refuses(n)
    }

    /** FSCTL_MOVE_FILE for one cluster. It may fail for any reason, and does when the target is taken. */
    method MoveOneCluster(file: File, vcn: nat, target: nat) returns (ok: bool)
      requires vcn < |file.clusters| && 0 <= file.clusters[vcn] < |used|
      modifies this`used, this`moves, file`clusters
      ensures moves == old(moves) + 1
      ensures ok <==> && !refuses(old(moves))
                      && target < |old(used)| && !old(used)[target] && target != old(file.clusters[vcn])
      ensures ok ==> file.clusters == old(file.clusters)[vcn := target]
      ensures ok ==> used == old(used)[target := true][old(file.clusters[vcn]) := false]
      ensures !ok ==> file.clusters == old(file.clusters) && used == old(used)
    {
      ok := !refuses(moves) && target < |used| && !used[target] && target != file.clusters[vcn];
      moves := moves + 1;
      if ok {
        used := used[target := true][file.clusters[vcn] := false];
        file.clusters := file.clusters[vcn := target];
      }
    }

    /** FSCTL_GET_VOLUME_BITMAP: it may fail, and does past the end, or return less than a header. */
    method GetBitmap(lcn: nat) returns (r: BitmapReply)
      modifies this`queries
      ensures queries == old(queries) + 1
      ensures r == if fate(old(queries)) == Truncated then ShortReply
                  else if fate(old(queries)) == Refused || lcn >= |used| then BitmapFailed
                  else Bitmap(ChunkStart(lcn), |used| - ChunkStart(lcn), BitmapFrom(used, lcn))
    {
      queries := queries + 1;
      r := if fate(queries - 1) == Truncated then ShortReply
           else if fate(queries - 1) == Refused || lcn >= |used| then BitmapFailed
           else Bitmap(ChunkStart(lcn), |used| - ChunkStart(lcn), BitmapFrom(used, lcn));
    }
  }

  // ---- the scanner ----

  datatype Scan = Free(lcn: nat) | NoneFree | ScanFailed

  class FreeClusterScanner {
    const volume: Volume
    const threshold: int
    var nextLcn: nat
    var chunkStart: int
    var chunkSize: nat
    var bitmap: Bytes

    constructor (volume: Volume, threshold: int)
      requires threshold <= |volume.used|
      ensures Valid() && this.volume == volume && this.threshold == threshold && nextLcn == 0
    {
      this.volume, this.threshold, nextLcn, chunkStart, chunkSize, bitmap := volume, threshold, 0, -1, 0, [];
    }

    /** What of the cached chunk is still to be scanned agrees with the volume. */
    ghost predicate Valid()
      reads this, volume
    {
      && threshold <= |volume.used|
      && (chunkStart >= 0 ==>
            && chunkStart + chunkSize <= |volume.used|
            && forall x :: nextLcn <= x < threshold && chunkStart <= x < chunkStart + chunkSize ==>
                             BitIsSet(bitmap, x - chunkStart) == volume.used[x])
    }

    ghost function Remaining(): seq<nat>
      requires Valid()
      reads this, volume
    {
      FreeFrom(volume.used, nextLcn, threshold)
    }

    /** Fails and changes nothing, loads an empty chunk, or loads one that covers `start`. */
    method LoadBitmap(start: nat) returns (ok: bool)
      requires Valid() && start < threshold && start == nextLcn
      modifies this`chunkStart, this`chunkSize, this`bitmap, volume`queries
      ensures Valid() && volume.queries == old(volume.queries) + 1
      ensures !ok <==> volume.fate(old(volume.queries)) == Refused
      ensures ok && chunkSize == 0 ==> volume.fate(old(volume.queries)) == Truncated
      ensures !ok ==> chunkStart == old(chunkStart) && chunkSize == old(chunkSize) && bitmap == old(bitmap)
      ensures ok ==> chunkStart >= 0 && (chunkSize == 0 || chunkStart <= start < chunkStart + chunkSize)
    {
      hide BitIsSet, BitmapFrom, ChunkStart;
      var r := volume.GetBitmap(start);
      match r {
        case BitmapFailed => return false;
        case ShortReply =>
          chunkStart, chunkSize, bitmap := start, 0, [];
          ok := true;
        case Bitmap(first, size, bytes) =>
          ChunkCovers(volume.used, start);
          chunkStart := first;
          chunkSize := if |bytes| * 8 < size then |bytes| * 8 else size;
          bitmap := bytes;
          forall x | chunkStart <= x < chunkStart + chunkSize
            ensures BitIsSet(bitmap, x - chunkStart) == volume.used[x]
          {
            ChunkBits(volume.used, start, x - chunkStart);
          }
          ok := true;
      }
    }

    /** The next free cluster, chunk by chunk: always the head of the naive scan. `cut` records a reply too short
        to say anything, which the caller cannot tell from the end of the scan. */
    method Next() returns (r: Scan, ghost cut: bool)
      requires Valid()
      modifies this, volume`queries
      ensures Valid() && nextLcn >= old(nextLcn) && volume.queries >= old(volume.queries)
      ensures r.Free? ==> old(Remaining()) != [] && r.lcn == old(Remaining())[0] && Remaining() == old(Remaining())[1..]
      ensures r.Free? ==> r.lcn < threshold && r.lcn < nextLcn && !volume.used[r.lcn]
      ensures !r.Free? ==> Remaining() == old(Remaining())
      ensures r.NoneFree? && !cut ==> Remaining() == []
      ensures r.ScanFailed? ==> volume.queries > old(volume.queries) && volume.fate(volume.queries - 1) == Refused
      ensures cut ==> r.NoneFree? && volume.queries > old(volume.queries)
                      && volume.fate(volume.queries - 1) == Truncated
      ensures old(volume.Answers()) ==> r.Free? || (r.NoneFree? && !cut && old(Remaining()) == [])
    {
      hide BitIsSet, BitmapFrom, ChunkStart;
      cut := false;
      while nextLcn < threshold
        invariant Valid() && nextLcn >= old(nextLcn)
        invariant Remaining() == old(Remaining()) && volume.queries >= old(volume.queries)
      {
        if chunkStart < 0 || nextLcn < chunkStart || nextLcn >= chunkStart + chunkSize {
          var ok := LoadBitmap(nextLcn);
          if !ok {
            return ScanFailed, false;
          }
          if chunkSize == 0 {
            return NoneFree, true;
          }
        }
        var offset := nextLcn - chunkStart;
        if 0 <= offset < chunkSize {
          if !BitIsSet(bitmap, offset) {
            var lcn := nextLcn;
            nextLcn := nextLcn + 1;
            return Free(lcn), false;
          }
        }
        nextLcn := nextLcn + 1;
      }
      r := NoneFree;
    }
  }

  // ---- relocation ----

  datatype Move = Moved(vcn: nat, target: nat) | NothingToMove | QueryFailed | NoFreeCluster | AttemptsFailed

  datatype Found = FoundAt(vcn: nat) | NoTail | RunsUnknown

  /** The file's clusters are allocated on the volume, each once. */
  ghost predicate Allocated(used: seq<bool>, c: seq<int>) {
    && (forall v :: 0 <= v < |c| && c[v] >= 0 ==> c[v] < |used| && used[c[v]])
    && (forall v, w :: 0 <= v < w < |c| && c[v] >= 0 ==> c[v] != c[w])
  }

  predicate NoneBefore(c: seq<int>, t: int, n: nat) {
    forall k :: 0 <= k < n && k < |c| ==> !Tail(c[k], t)
  }

  function FirstInRun(lcn: int, t: int): nat {
    if t - lcn > 0 then t - lcn else 0
  }

  /** The run at `v` holds no tail cluster, or its first one is where the source computes it. */
  lemma RunTail(c: seq<int>, t: int, v: nat)
    requires v < |c| && NoneBefore(c, t, v)
    ensures if c[v] >= 0 && c[v] + (RunEnd(c, v) - v) > t
            then var w := v + FirstInRun(c[v], t); w < |c| && Tail(c[w], t) && NoneBefore(c, t, w)
            else NoneBefore(c, t, RunEnd(c, v))
  {
    forall k | v <= k < RunEnd(c, v)
      ensures if c[v] < 0 then c[k] < 0 else c[k] == c[v] + (k - v)
    {
      RunContents(c, v, k);
    }
  }

  lemma MoveKeeps(used: seq<bool>, c: seq<int>, v: nat, x: nat)
    requires Allocated(used, c) && v < |c| && 0 <= c[v] && x < |used| && !used[x]
    ensures Allocated(used[x := true][c[v] := false], c[v := x])
  {
  }

  /** Moves number `from` to `now - 1` took the free clusters in order, `left` are the others: all were refused but the
      last of a successful try, and after 1024 there is none. */
  ghost predicate Tried(refuses: nat -> bool, from: nat, now: nat, free: seq<nat>, left: seq<nat>, r: Move) {
    && from <= now <= from + 1024 && now - from <= |free| && left == free[now - from..]
    && (forall n :: from <= n < (if r.Moved? then now - 1 else now) ==> refuses(n))
    && (r.Moved? ==> from < now && !refuses(now - 1) && r.target == free[now - 1 - from])
    && (r.AttemptsFailed? ==> now == from + 1024)
  }

  /** Whatever stopped a move: an empty file or a query just refused, a reply just cut short, or 1024 moves just
      refused. */
  ghost predicate Traced(volume: Volume, file: File, r: Move, cut: bool)
    reads volume, file
  {
    && (r.QueryFailed? ==>
          || |file.clusters| == 0
          || (file.queries > 0 && file.refuses(file.queries - 1))
          || (volume.queries > 0 && volume.fate(volume.queries - 1) == Refused))
    && (cut ==> r.NoFreeCluster? && volume.queries > 0 && volume.fate(volume.queries - 1) == Truncated)
    && (r.AttemptsFailed? ==> volume.moves >= 1024 && forall n :: volume.moves - 1024 <= n < volume.moves ==>
                                                                    volume.refuses(n))
  }

  /** Find the file's first tail cluster and move it to the next free cluster that takes it. */
  method MoveSingleTailCluster(volume: Volume, file: File, scanner: FreeClusterScanner)
    returns (r: Move, ghost cut: bool)
    requires scanner.volume == volume && scanner.Valid() && Allocated(volume.used, file.clusters)
    modifies volume, file, scanner
    ensures scanner.Valid() && Allocated(volume.used, file.clusters)
    ensures r.Moved? ==>
              && r.vcn < |old(file.clusters)| && Tail(old(file.clusters)[r.vcn], scanner.threshold)
              && NoneBefore(old(file.clusters), scanner.threshold, r.vcn)
              && r.target < scanner.threshold && r.target < |old(volume.used)| && !old(volume.used)[r.target]
              && !Tail(r.target, scanner.threshold)
              && file.clusters == old(file.clusters)[r.vcn := r.target]
              && volume.used == old(volume.used)[r.target := true][old(file.clusters)[r.vcn] := false]
    ensures !r.Moved? ==> file.clusters == old(file.clusters) && volume.used == old(volume.used)
    ensures r.NothingToMove? ==> NoneBefore(file.clusters, scanner.threshold, |file.clusters|)
    ensures r.NoFreeCluster? && !cut ==> scanner.Remaining() == []
    ensures Traced(volume, file, r, cut)
    ensures Tried(volume.refuses, old(volume.moves), volume.moves, old(scanner.Remaining()), scanner.Remaining(), r)
    ensures old(volume.Answers()) ==> volume.Answers()
    ensures old(volume.Obeys()) ==> volume.Obeys()
    ensures old(file.Answers()) ==> file.Answers()
    ensures old(volume.Answers() && volume.Obeys() && file.Answers()) ==>
              || (r.NothingToMove? && scanner.Remaining() == old(scanner.Remaining()))
              || (|file.clusters| == 0 && r.QueryFailed? && scanner.Remaining() == old(scanner.Remaining()))
              || (if old(scanner.Remaining()) != [] then
                    r.Moved? && scanner.Remaining() == old(scanner.Remaining())[1..]
                  else r.NoFreeCluster? && !cut && scanner.Remaining() == [])
  {
    hide BitIsSet, FreeClusterScanner.Valid, FreeClusterScanner.Remaining, FreeFrom, Tail, NoneBefore, Allocated,
         Tried, Traced;
    var vcn := FindTailCluster(file, scanner.threshold);
    NothingTried(volume, file, scanner.Remaining());
    match vcn {
      case NoTail => r, cut := NothingToMove, false;
      case RunsUnknown => r, cut := QueryFailed, false;
      case FoundAt(v) => r, cut := MoveToFree(volume, file, scanner, v);
    }
  }

  lemma NothingTried(volume: Volume, file: File, free: seq<nat>)
    ensures Tried(volume.refuses, volume.moves, volume.moves, free, free, NothingToMove)
    ensures Tried(volume.refuses, volume.moves, volume.moves, free, free, QueryFailed)
    ensures Traced(volume, file, NothingToMove, false)
    ensures |file.clusters| == 0 || (file.queries > 0 && file.refuses(file.queries - 1)) ==>
              Traced(volume, file, QueryFailed, false)
  {
  }

  /** The query loop: buffer by buffer, run by run, to the first run that reaches into the tail. */
  method FindTailCluster(file: File, t: int) returns (r: Found)
    modifies file`queries
    ensures file.queries > old(file.queries)
    ensures r.RunsUnknown? ==> |file.clusters| == 0 || file.refuses(file.queries - 1)
    ensures r.FoundAt? ==>
              r.vcn < |file.clusters| && Tail(file.clusters[r.vcn], t) && NoneBefore(file.clusters, t, r.vcn)
    ensures r.NoTail? ==> NoneBefore(file.clusters, t, |file.clusters|)
  {
    hide Tail, EndOf, NoneBefore, Extents;
    assert NoneBefore(file.clusters, t, 0) by { NothingBefore(file.clusters, t); }
    var start: nat := 0;
    while true
      invariant start <= |file.clusters| && NoneBefore(file.clusters, t, start)
      invariant file.queries >= old(file.queries) && (start == 0 || start < |file.clusters|)
      decreases |file.clusters| - start
    {
      var p := file.GetRetrievalPointers(start);
      if p.None? {
        return RunsUnknown;
      }
      var (extents, more) := p.value;
      var at, current := ScanRuns(extents, t, start, file.clusters);
      if at.Some? {
        return FoundAt(at.value);
      }
      if !more {
        return NoTail;
      }
      start := current;
    }
  }

  /** One buffer of runs, from cluster number `start` on. */
  method ScanRuns(extents: seq<Extent>, t: int, start: nat, ghost c: seq<int>) returns (r: Option<nat>, current: nat)
    requires start <= |c| && extents == Extents(c, start, EXTENTS_PER_QUERY) && NoneBefore(c, t, start)
    ensures r.Some? ==> r.value < |c| && Tail(c[r.value], t) && NoneBefore(c, t, r.value)
    ensures r.None? ==> current == EndOf(c, start, EXTENTS_PER_QUERY) && NoneBefore(c, t, current)
  {
    hide Tail, NoneBefore, RunEnd, FirstInRun;
    current := start;
    for i := 0 to |extents|
      invariant current <= |c| && NoneBefore(c, t, current)
      invariant i <= EXTENTS_PER_QUERY && extents[i..] == Extents(c, current, EXTENTS_PER_QUERY - i)
      invariant EndOf(c, start, EXTENTS_PER_QUERY) == EndOf(c, current, EXTENTS_PER_QUERY - i)
    {
      var extent := extents[i];
      assert extents[i..][0] == extent && extents[i..][1..] == extents[i + 1..];
      RunTail(c, t, current);
      var length := extent.nextVcn - current;
      if extent.lcn >= 0 && length > 0 && extent.lcn + length > t {
        return Some(current + FirstInRun(extent.lcn, t)), current;
      }
      current := extent.nextVcn;
    }
    r := None;
  }

  lemma NothingBefore(c: seq<int>, t: int)
    ensures NoneBefore(c, t, 0)
  {
  }

  lemma ClusterUsed(used: seq<bool>, c: seq<int>, v: nat)
    requires Allocated(used, c) && v < |c| && c[v] >= 0
    ensures c[v] < |used| && used[c[v]]
  {
  }

  /** Up to 1024 targets from the scanner. */
  method MoveToFree(volume: Volume, file: File, scanner: FreeClusterScanner, vcn: nat)
    returns (r: Move, ghost cut: bool)
    requires scanner.volume == volume && scanner.Valid() && Allocated(volume.used, file.clusters)
    requires vcn < |file.clusters| && Tail(file.clusters[vcn], scanner.threshold)
    modifies volume, file`clusters, scanner
    ensures scanner.Valid() && Allocated(volume.used, file.clusters)
    ensures r.Moved? || r.NoFreeCluster? || r.AttemptsFailed? || r.QueryFailed?
    ensures r.Moved? ==>
              && r.vcn == vcn && r.target < scanner.threshold && r.target < |old(volume.used)|
                 && !old(volume.used)[r.target]
              && file.clusters == old(file.clusters)[vcn := r.target]
              && volume.used == old(volume.used)[r.target := true][old(file.clusters)[vcn] := false]
    ensures !r.Moved? ==> file.clusters == old(file.clusters) && volume.used == old(volume.used)
    ensures r.NoFreeCluster? && !cut ==> scanner.Remaining() == []
    ensures Traced(volume, file, r, cut)
    ensures r.Moved? ==> !Tail(r.target, scanner.threshold)
    ensures old(volume.Answers()) ==> volume.Answers()
    ensures old(volume.Obeys()) ==> volume.Obeys()
    ensures Tried(volume.refuses, old(volume.moves), volume.moves, old(scanner.Remaining()), scanner.Remaining(), r)
    ensures old(volume.Answers() && volume.Obeys()) ==>
              if old(scanner.Remaining()) != [] then
                r.Moved? && scanner.Remaining() == old(scanner.Remaining())[1..]
              else r.NoFreeCluster? && !cut && scanner.Remaining() == []
  {
    hide BitIsSet, FreeFrom, Allocated;
    ClusterUsed(volume.used, file.clusters, vcn);
    cut := false;
    var attempts := 0;
    while attempts < MAX_ATTEMPTS
      invariant attempts <= MAX_ATTEMPTS && !cut
      invariant scanner.Valid() && file.clusters == old(file.clusters) && volume.used == old(volume.used)
      invariant volume.moves == old(volume.moves) + attempts && volume.queries >= old(volume.queries)
      invariant attempts <= |old(scanner.Remaining())|
      invariant scanner.Remaining() == old(scanner.Remaining())[attempts..]
      invariant forall n :: old(volume.moves) <= n < volume.moves ==> volume.refuses(n)
      invariant old(volume.Obeys()) ==> attempts == 0
    {
      var target;
      target, cut := scanner.Next();
      if target.ScanFailed? {
        return QueryFailed, cut;
      }
      if target.NoneFree? {
        return NoFreeCluster, cut;
      }
      var ok := volume.MoveOneCluster(file, vcn, target.lcn);
      if ok {
        MoveKeeps(old(volume.used), old(file.clusters), vcn, target.lcn);
        FreeFromLocal(old(volume.used), volume.used, scanner.nextLcn, scanner.threshold);
        return Moved(vcn, target.lcn), cut;
      }
      assert volume.refuses(old(volume.moves) + attempts);
      attempts := attempts + 1;
    }
    r := AttemptsFailed;
  }

  /** From `used` to `used'` and from `c` to `c'`: what other files use stays in use, and what the file gained
      was free. */
  ghost predicate KeepsOthers(used: seq<bool>, used': seq<bool>, c: seq<int>, c': seq<int>) {
    && |used'| == |used|
    && (forall x :: 0 <= x < |used| && used[x] && x !in c ==> used'[x])
    && (forall v :: 0 <= v < |c'| && c'[v] >= 0 && c'[v] !in c ==> c'[v] < |used| && !used[c'[v]])
  }

  /** Only tail clusters of the file have moved, and those below the threshold. */
  predicate TailMoved(c: seq<int>, c': seq<int>, t: int) {
    && |c'| == |c|
    && (forall v :: 0 <= v < |c| && !Tail(c[v], t) ==> c'[v] == c[v])
    && (forall v :: 0 <= v < |c| && c'[v] != c[v] ==> 0 <= c'[v] < t)
  }

  /** No cluster of the volume's tail has become used. */
  predicate TailFreed(used: seq<bool>, used': seq<bool>, t: int) {
    |used'| == |used| && forall x :: t <= x < |used| && 0 <= x && used'[x] ==> used[x]
  }

  lemma NothingMoved(used: seq<bool>, c: seq<int>, t: int)
    ensures KeepsOthers(used, used, c, c) && TailMoved(c, c, t) && TailFreed(used, used, t)
  {
  }

  lemma MovedOn(used: seq<bool>, used': seq<bool>, c: seq<int>, c': seq<int>, t: int, v: nat, x: nat)
    requires Allocated(used, c) && Allocated(used', c')
    requires KeepsOthers(used, used', c, c') && TailMoved(c, c', t) && TailFreed(used, used', t)
    requires v < |c'| && Tail(c'[v], t) && x < t && x < |used'| && !used'[x]
    ensures c'[v] < |used'|
    ensures KeepsOthers(used, used'[x := true][c'[v] := false], c, c'[v := x])
    ensures TailMoved(c, c'[v := x], t) && TailFreed(used, used'[x := true][c'[v] := false], t)
  {
  }

  lemma OffTheFront(s: seq<nat>, k: nat)
    ensures k < |s| ==> s[k..] != [] && s[k..][1..] == s[k + 1..]
    ensures k == |s| ==> s[k..] == []
  {
  }

  lemma NoTailLeft(c: seq<int>, t: int)
    requires NoneBefore(c, t, |c|)
    ensures TailCount(c, t) == 0
  {
    TailCountZero(c, t);
  }

  lemma NothingInNothing(c: seq<int>, t: int)
    ensures |c| == 0 ==> TailCount(c, t) == 0
  {
  }

  function Lesser(a: nat, b: nat): nat { if a < b then a else b }

  /** The per-file loop: every successful move takes one cluster out of the tail, so it ends, and unless a query or
      all attempts at a move failed or free clusters ran out the file has none left there. Nothing else in the file
      moves, and no tail cluster of the volume becomes used. */
  method MoveFileTail(volume: Volume, file: File, scanner: FreeClusterScanner)
    returns (moves: nat, stop: Move, ghost cut: bool)
    requires scanner.volume == volume && scanner.Valid() && Allocated(volume.used, file.clusters)
    modifies volume, file, scanner
    ensures scanner.Valid() && Allocated(volume.used, file.clusters) && !stop.Moved?
    ensures moves + TailCount(file.clusters, scanner.threshold) == TailCount(old(file.clusters), scanner.threshold)
    ensures old(volume.Answers()) ==> volume.Answers()
    ensures old(volume.Obeys()) ==> volume.Obeys()
    ensures old(file.Answers()) ==> file.Answers()
    ensures || TailCount(file.clusters, scanner.threshold) == 0 || stop.QueryFailed? || stop.AttemptsFailed?
            || (stop.NoFreeCluster? && (cut || scanner.Remaining() == []))
    ensures Traced(volume, file, stop, cut)
    ensures old(volume.Answers() && volume.Obeys() && file.Answers()) ==>
              && moves <= |old(scanner.Remaining())| && scanner.Remaining() == old(scanner.Remaining())[moves..]
              && moves == Lesser(TailCount(old(file.clusters), scanner.threshold), |old(scanner.Remaining())|)
    ensures TailMoved(old(file.clusters), file.clusters, scanner.threshold)
    ensures TailFreed(old(volume.used), volume.used, scanner.threshold)
    ensures moves == 0 ==> file.clusters == old(file.clusters)
    ensures KeepsOthers(old(volume.used), volume.used, old(file.clusters), file.clusters)
  {
    hide BitIsSet, FreeClusterScanner.Valid, FreeClusterScanner.Remaining, FreeFrom, TailCount, KeepsOthers,
         Volume.Answers, Volume.Obeys, Tried, Traced, File.Answers, TailMoved, TailFreed, Allocated, NoneBefore, Tail;
    var t := scanner.threshold;
    NothingMoved(volume.used, file.clusters, t);
    moves := 0;
    while true
      invariant scanner.Valid() && Allocated(volume.used, file.clusters)
      invariant moves + TailCount(file.clusters, t) == TailCount(old(file.clusters), t)
      invariant TailMoved(old(file.clusters), file.clusters, t) && TailFreed(old(volume.used), volume.used, t)
      invariant moves == 0 ==> file.clusters == old(file.clusters)
      invariant KeepsOthers(old(volume.used), volume.used, old(file.clusters), file.clusters)
      invariant old(volume.Answers()) ==> volume.Answers()
      invariant old(volume.Obeys()) ==> volume.Obeys()
      invariant old(file.Answers()) ==> file.Answers()
      invariant old(volume.Answers() && volume.Obeys() && file.Answers()) ==>
                  && moves <= |old(scanner.Remaining())|
                  && scanner.Remaining() == old(scanner.Remaining())[moves..]
      decreases TailCount(file.clusters, t)
    {
      ghost var before, was := file.clusters, volume.used;
      stop, cut := MoveSingleTailCluster(volume, file, scanner);
      if !stop.Moved? {
        if stop.NothingToMove? {
          NoTailLeft(file.clusters, t);
        }
        NothingInNothing(file.clusters, t);
        return;
      }
      TailCountDrops(before, t, stop.vcn, stop.target);
      MovedOn(old(volume.used), was, old(file.clusters), before, t, stop.vcn, stop.target);
      OffTheFront(old(scanner.Remaining()), moves);
      moves := moves + 1;
    }
  }

  // ---- the walk ----

  function Contents(files: seq<File>): (cs: seq<seq<int>>)
    reads files
    ensures |cs| == |files| && forall i :: 0 <= i < |files| ==> cs[i] == files[i].clusters
  {
    seq(|files|, i requires 0 <= i < |files| reads files => files[i].clusters)
  }

  ghost predicate Apart(c: seq<int>, d: seq<int>) {
    forall v, w :: 0 <= v < |c| && 0 <= w < |d| && c[v] >= 0 ==> c[v] != d[w]
  }

  /** All files are allocated on the volume and no two share a cluster. */
  ghost predicate Shared(used: seq<bool>, cs: seq<seq<int>>) {
    && (forall i :: 0 <= i < |cs| ==> Allocated(used, cs[i]))
    && (forall i, j :: 0 <= i < |cs| && 0 <= j < |cs| && i != j ==> Apart(cs[i], cs[j]))
  }

  predicate NoneTwice(files: seq<File>) {
    forall i, j :: 0 <= i < j < |files| ==> files[i] != files[j]
  }

  lemma OtherStays(used: seq<bool>, used': seq<bool>, c: seq<int>, c': seq<int>, d: seq<int>)
    requires KeepsOthers(used, used', c, c') && Allocated(used, d) && Apart(c, d) && Apart(d, c)
    ensures Allocated(used', d) && Apart(c', d) && Apart(d, c')
  {
  }

  lemma StillShared(used: seq<bool>, used': seq<bool>, cs: seq<seq<int>>, i: nat, c': seq<int>)
    requires Shared(used, cs) && i < |cs| && KeepsOthers(used, used', cs[i], c') && Allocated(used', c')
    ensures Shared(used', cs[i := c'])
  {
    hide Allocated, Apart, KeepsOthers;
    forall j | 0 <= j < |cs| && j != i
      ensures Allocated(used', cs[j]) && Apart(c', cs[j]) && Apart(cs[j], c')
    {
      OtherStays(used, used', cs[i], c', cs[j]);
    }
  }

  /** What the walk has achieved over the first `n` files. */
  ghost predicate Walked(was: seq<seq<int>>, cs: seq<seq<int>>, openable: seq<bool>, stops: seq<Move>, t: int, n: nat) {
    && |was| == |cs| == |openable| && n <= |cs| && |stops| == n
    && (forall i :: 0 <= i < |cs| && (i >= n || !openable[i]) ==> cs[i] == was[i])
    && (forall i :: 0 <= i < n && openable[i] && stops[i].NothingToMove? ==> TailCount(cs[i], t) == 0)
  }

  lemma WalkOne(was: seq<seq<int>>, cs: seq<seq<int>>, openable: seq<bool>, stops: seq<Move>, t: int, n: nat,
                c: seq<int>, stop: Move)
    requires Walked(was, cs, openable, stops, t, n) && n < |cs|
    requires if openable[n] then stop.NothingToMove? ==> TailCount(c, t) == 0 else c == cs[n]
    ensures Walked(was, cs[n := c], openable, stops + [stop], t, n + 1)
  {
  }

  ghost predicate NothingRefused(volume: Volume, files: seq<File>)
    reads volume, files
  {
    volume.Answers() && volume.Obeys() && forall i :: 0 <= i < |files| ==> files[i].Answers()
  }

  /** None of the first `n` files that can be opened has a cluster left in the tail. */
  predicate Emptied(cs: seq<seq<int>>, openable: seq<bool>, t: int, n: nat) {
    |cs| == |openable| && n <= |cs| && forall i :: 0 <= i < n && openable[i] ==> TailCount(cs[i], t) == 0
  }

  lemma NoneToEmpty(cs: seq<seq<int>>, openable: seq<bool>, t: int)
    requires |cs| == |openable|
    ensures Emptied(cs, openable, t, 0)
  {
  }

  lemma EmptyOne(cs: seq<seq<int>>, openable: seq<bool>, t: int, n: nat, c: seq<int>)
    requires |cs| == |openable| && n < |cs|
    ensures Emptied(cs, openable, t, n) && (openable[n] ==> TailCount(c, t) == 0) ==>
              Emptied(cs[n := c], openable, t, n + 1)
  {
    hide TailCount;
  }

  /** One visit of the walk: a file that cannot be opened is passed over. */
  method VisitFile(volume: Volume, files: seq<File>, openable: seq<bool>, i: nat, scanner: FreeClusterScanner)
    returns (moves: nat, ghost stop: Move)
    requires scanner.volume == volume && scanner.Valid() && |openable| == |files| && i < |files|
    requires NoneTwice(files) && Shared(volume.used, Contents(files))
    modifies volume, files[i], scanner
    ensures scanner.Valid() && Shared(volume.used, Contents(files))
    ensures Contents(files) == old(Contents(files))[i := files[i].clusters]
    ensures moves > 0 <==> files[i].clusters != old(files[i].clusters)
    ensures !openable[i] ==> moves == 0
    ensures openable[i] && stop.NothingToMove? ==> TailCount(files[i].clusters, scanner.threshold) == 0
    ensures old(NothingRefused(volume, files)) ==>
              && NothingRefused(volume, files)
              && (old(scanner.Remaining()) == [] ==> scanner.Remaining() == [])
              && (openable[i] ==> scanner.Remaining() == [] || TailCount(files[i].clusters, scanner.threshold) == 0)
  {
    hide BitIsSet, FreeClusterScanner.Valid, FreeClusterScanner.Remaining, FreeFrom, TailCount, KeepsOthers, Allocated,
         Shared, Volume.Answers, Volume.Obeys, File.Answers, NoneBefore, TailMoved, TailFreed, Tried, Traced;
    moves, stop := 0, NothingToMove;
    ghost var used, cs := volume.used, Contents(files);
    if openable[i] {
      AllocatedOne(used, cs, i);
      ghost var cut;
      moves, stop, cut := MoveFileTail(volume, files[i], scanner);
      StillShared(used, volume.used, cs, i, files[i].clusters);
    }
    assert Contents(files) == cs[i := files[i].clusters];
  }

  /** The walk over the volume's files: one that cannot be opened is passed over. Whatever happens to the others,
      a file whose loop ended with nothing to move has no cluster left in the tail, and the result says whether
      any file changed. If nothing is refused, every file that can be opened ends without a cluster in the tail, or the
      free clusters below the threshold have run out. */
  method MoveTailClusters(volume: Volume, files: seq<File>, openable: seq<bool>, scanner: FreeClusterScanner)
    returns (movedAny: bool, ghost stops: seq<Move>)
    requires scanner.volume == volume && scanner.Valid() && |openable| == |files|
    requires NoneTwice(files) && Shared(volume.used, Contents(files))
    modifies volume, files, scanner
    ensures scanner.Valid() && Shared(volume.used, Contents(files))
    ensures Walked(old(Contents(files)), Contents(files), openable, stops, scanner.threshold, |files|)
    ensures movedAny <==> Contents(files) != old(Contents(files))
    ensures old(NothingRefused(volume, files)) ==>
              scanner.Remaining() == [] || Emptied(Contents(files), openable, scanner.threshold, |files|)
  {
    hide BitIsSet, FreeClusterScanner.Valid, FreeClusterScanner.Remaining, FreeFrom, TailCount, KeepsOthers, Allocated,
         Shared, Walked, Volume.Answers, Volume.Obeys, Tried, Traced, File.Answers, NoneBefore, Emptied, TailMoved,
             TailFreed;
    movedAny, stops := false, [];
    ghost var was, t := Contents(files), scanner.threshold;
    WalkNothing(was, openable, t);
    NoneToEmpty(was, openable, t);
    for i := 0 to |files|
      invariant scanner.Valid() && Shared(volume.used, Contents(files))
      invariant Walked(was, Contents(files), openable, stops, t, i)
      invariant movedAny <==> Contents(files) != was
      invariant old(NothingRefused(volume, files)) ==> NothingRefused(volume, files)
      invariant old(NothingRefused(volume, files)) ==>
                  scanner.Remaining() == [] || Emptied(Contents(files), openable, t, i)
    {
      ghost var cs := Contents(files);
      ghost var stop;
      Untouched(was, cs, openable, stops, t, i);
      var moves, how := VisitFile(volume, files, openable, i, scanner);
      stop := how;
      if moves > 0 {
        movedAny := true;
      }
      WalkOne(was, cs, openable, stops, t, i, files[i].clusters, stop);
      EmptyOne(cs, openable, t, i, files[i].clusters);
      stops := stops + [stop];
    }
  }

  lemma WalkNothing(was: seq<seq<int>>, openable: seq<bool>, t: int)
    requires |was| == |openable|
    ensures Walked(was, was, openable, [], t, 0)
  {
  }

  lemma Untouched(was: seq<seq<int>>, cs: seq<seq<int>>, openable: seq<bool>, stops: seq<Move>, t: int, n: nat)
    requires Walked(was, cs, openable, stops, t, n) && n < |cs|
    ensures |was| == |cs| && cs[n] == was[n]
  {
  }

  lemma AllocatedOne(used: seq<bool>, cs: seq<seq<int>>, i: nat)
    requires Shared(used, cs) && i < |cs|
    ensures Allocated(used, cs[i])
  {
  }
}
