/** The disk cache itself: fields updated in place, proved against the operations of `CacheOps`. */
module CacheStore {
  import opened BlobDir
  import opened Common
  import opened CacheSpec
  import Ops = CacheOps

  /** Each blob once, whatever the order. */
  ghost predicate Distinct(files: seq<Victim>) {
    forall i, j | 0 <= i < j < |files| :: files[i].name != files[j].name
  }

  predicate Sorted(files: seq<Victim>) {
    forall i, j | 0 <= i < j < |files| :: files[i].ts <= files[j].ts
  }

  lemma InsertionSorted(sorted: seq<Victim>, k: nat, v: Victim)
    requires Sorted(sorted) && k <= |sorted|
    requires k > 0 ==> sorted[k - 1].ts <= v.ts
    requires k < |sorted| ==> v.ts < sorted[k].ts
    ensures Sorted(sorted[..k] + [v] + sorted[k..])
  {
    var r := sorted[..k] + [v] + sorted[k..];
    forall i | 0 <= i < |r|
      ensures r[i] == if i < k then sorted[i] else if i == k then v else sorted[i - 1]
    {
    }
  }

  lemma InsertionKeeps(sorted: seq<Victim>, k: nat, v: Victim)
    requires k <= |sorted|
    ensures multiset(sorted[..k] + [v] + sorted[k..]) == multiset(sorted) + multiset{v}
  {
    assert sorted == sorted[..k] + sorted[k..];
  }

  method Insert(sorted: seq<Victim>, v: Victim) returns (r: seq<Victim>)
    requires Sorted(sorted)
    ensures Sorted(r) && multiset(r) == multiset(sorted) + multiset{v}
  {
    var k := |sorted|;
    while k > 0 && v.ts < sorted[k - 1].ts
      invariant 0 <= k <= |sorted|
      invariant k < |sorted| ==> v.ts < sorted[k].ts
    {
      k := k - 1;
    }
    InsertionSorted(sorted, k, v);
    InsertionKeeps(sorted, k, v);
    return sorted[..k] + [v] + sorted[k..];
  }

  /** Sorts by access time. Callers learn nothing about the order of equal times. */
  method SortByTime(files: seq<Victim>) returns (sorted: seq<Victim>)
    ensures Sorted(sorted) && multiset(sorted) == multiset(files)
  {
    sorted := [];
    for i := 0 to |files|
      invariant Sorted(sorted) && multiset(sorted) == multiset(files[..i])
    {
      sorted := Insert(sorted, files[i]);
      assert files[..i + 1] == files[..i] + [files[i]];
    }
    assert files[..|files|] == files;
  }

  /** What the scan has recorded once only `entries` are left. */
  ghost function Scanned(dir: Dir, hidden: set<Name>, entries: set<Name>): State {
    Tally(dir, Blobs(dir) - hidden - entries)
  }

  lemma NothingTallied(dir: Dir)
    ensures Tally(dir, map[]) == State(dir, 0, 0, map[])
  {
  }

  lemma ScanStarts(dir: Dir, hidden: set<Name>)
    ensures Scanned(dir, hidden, dir.Keys) == Tally(dir, map[])
  {
    hide IsBlob, Tally;
    assert Blobs(dir) - hidden - dir.Keys == map[];
  }

  lemma ScanEnds(dir: Dir, hidden: set<Name>)
    ensures Scanned(dir, hidden, {}) == Scan(dir, false, hidden)
  {
    hide IsBlob, Tally, Blobs;
    assert Blobs(dir) - hidden - {} == Blobs(dir) - hidden;
  }

  lemma LeftToScan(dir: Dir, hidden: set<Name>, entries: set<Name>, e: Name)
    requires e in entries && entries <= dir.Keys
    ensures var done, done' := Blobs(dir) - hidden - entries, Blobs(dir) - hidden - (entries - {e});
            && e !in done
            && done' == if IsBlob(e) && e !in hidden then done[e := dir[e]] else done
  {
    hide IsBlob;
  }

  lemma TallyPlus(dir: Dir, m: Dir, n: Name, f: File)
    requires n !in m
    ensures var s, t := Tally(dir, m), Tally(dir, m[n := f]);
            t == State(dir, s.used + |f.data|, s.count + 1, s.touched[n := f.mtime])
  {
    TotalPlus(m, n, f);
  }

  /** The scan counts a blob when it passes it. */
  lemma ScanStep(dir: Dir, hidden: set<Name>, entries: set<Name>, e: Name)
    requires e in entries && entries <= dir.Keys
    ensures var s, t := Scanned(dir, hidden, entries), Scanned(dir, hidden, entries - {e});
            t == if IsBlob(e) && e !in hidden
                 then State(dir, s.used + |dir[e].data|, s.count + 1, s.touched[e := dir[e].mtime])
                 else s
  {
    hide IsBlob, Blobs, Tally;
    LeftToScan(dir, hidden, entries, e);
    TallyPlus(dir, Blobs(dir) - hidden - entries, e, dir[e]);
  }

  class Cache {
    const maxSize: int
    var dir: Dir
    var usedSize: int
    var count: int
    var accessTimes: map<Name, int>

    ghost function Snapshot(): State
      reads this
    {
      State(dir, usedSize, count, accessTimes)
    }

    /** Opens a cache on an existing directory. */
    constructor (maxSize: int, dir: Dir, listFails: bool, hidden: set<Name>)
      ensures this.maxSize == maxSize
      ensures Snapshot() == Scan(dir, listFails, hidden)
    {
      this.maxSize := maxSize;
      this.dir := dir;
      usedSize, count, accessTimes := 0, 0, map[];
      new;
      ScanExisting(listFails, hidden);
    }

    method ScanExisting(listFails: bool, hidden: set<Name>)
      requires usedSize == 0 && count == 0 && accessTimes == map[]
      modifies this
      ensures Snapshot() == Scan(old(dir), listFails, hidden)
    {
      hide IsBlob, Scanned;
      NothingTallied(dir);
      ScanStarts(dir, hidden);
      ScanEnds(dir, hidden);
      if listFails {
        return;
      }
      var entries := dir.Keys;
      while entries != {}
        invariant entries <= dir.Keys && dir == old(dir)
        invariant Snapshot() == Scanned(dir, hidden, entries)
        decreases |entries|
      {
        var e :| e in entries;
        ScanStep(dir, hidden, entries, e);
        entries := entries - {e};
        if IsBlob(e) && e !in hidden {
          usedSize := usedSize + |dir[e].data|;
          count := count + 1;
          accessTimes := accessTimes[e := dir[e].mtime];
        }
      }
    }

    method Get(digest: string, io: Ops.GetIO, now: int) returns (r: Ops.GetResult)
      modifies this
      ensures (Snapshot(), r) == Ops.Get(old(Snapshot()), BlobName(digest), io, now)
    {
      var path := BlobName(digest);
      if path !in dir || io.statFails {
        return Ops.Miss;
      }
      var size := |dir[path].data|;
      if io.openFails {
        return Ops.Miss;
      }
      accessTimes := accessTimes[path := now];
      return Ops.Hit(dir[path].data, size);
    }

    method Put(digest: string, reader: Bytes, size: int, io: Ops.PutIO, now: int)
      returns (r: Ops.PutResult, ghost order: seq<Victim>)
      modifies this
      ensures Ops.OrderOk(maxSize, old(Snapshot()), BlobName(digest), size, io, order)
      ensures (Snapshot(), r)
              == Ops.Put(maxSize, old(Snapshot()), BlobName(digest), reader, size, io, order, now)
    {
      var path := BlobName(digest);
      order := [];
      if path in dir && !io.statFails {
        accessTimes := accessTimes[path := now];
        return Ops.Ok, order;
      }

      var used := usedSize;
      if used + size > maxSize {
        var err;
        err, order := EvictLocked(used + size - maxSize, io);
        if err.Some? {
          return Ops.Err(err.value), order;
        }
        if usedSize + size > maxSize {
          return Ops.Err(Ops.NoSpace), order;
        }
      }
      r := WriteBlob(path, reader, io, now);
    }

    /** The part of `Put` after the space check: temporary file, rename, counters. */
    method WriteBlob(path: Name, reader: Bytes, io: Ops.PutIO, now: int) returns (r: Ops.PutResult)
      modifies this
      ensures (Snapshot(), r) == Ops.Write(old(Snapshot()), path, reader, io, now)
    {
      var tmpPath := TmpName(path);
      if io.createFails {
        return Ops.Err(Ops.CreateError);
      }
      var written := if io.copyFails then io.partial else reader;
      dir := dir[tmpPath := File(written, now)];
      if io.copyFails {
        if !io.cleanupFails {
          dir := dir - {tmpPath};
        }
        return Ops.Err(Ops.CopyError);
      }
      if io.renameFails {
        if !io.cleanupFails {
          dir := dir - {tmpPath};
        }
        return Ops.Err(Ops.RenameError);
      }
      ghost var before := old(dir);
      dir := (dir - {tmpPath})[path := dir[tmpPath]];
      assert before[tmpPath := File(reader, now)] - {tmpPath} == before - {tmpPath};
      usedSize := usedSize + |written|;
      count := count + 1;
      accessTimes := accessTimes[path := now];
      return Ops.Ok;
    }

    method Remove(digest: string, io: Ops.RemoveIO) returns (r: Ops.RemoveResult)
      modifies this
      ensures (Snapshot(), r) == Ops.Remove(old(Snapshot()), BlobName(digest), io)
    {
      var path := BlobName(digest);
      if io.statFails {
        return Ops.RemoveError;
      }
      if path !in dir {
        return Ops.Gone;
      }
      if io.removeFails {
        return Ops.RemoveError;
      }
      var size := |dir[path].data|;
      dir := dir - {path};
      usedSize := usedSize - size;
      count := count - 1;
      accessTimes := accessTimes - {path};
      return Ops.Gone;
    }

    method Stats() returns (used: int, max: int, n: int)
      ensures used == Snapshot().used && max == maxSize && n == Snapshot().count
    {
      return usedSize, maxSize, count;
    }

    /** Collects the blobs that can be examined, with size and last access. */
    method ListVictims(hidden: set<Name>) returns (files: seq<Victim>)
      ensures Distinct(files)
      ensures forall v :: v in files <==>
                v.name in Blobs(dir) && v.name !in hidden
                && v == Victim(v.name, |dir[v.name].data|, Stamp(Snapshot(), v.name))
    {
      files := [];
      var entries := dir.Keys;
      while entries != {}
        invariant entries <= dir.Keys
        invariant Distinct(files)
        invariant forall v :: v in files <==>
                    v.name in Blobs(dir) && v.name !in hidden && v.name !in entries
                    && v == Victim(v.name, |dir[v.name].data|, Stamp(Snapshot(), v.name))
        decreases |entries|
      {
        var e :| e in entries;
        entries := entries - {e};
        if IsBlob(e) && e !in hidden {
          var ts := if e in accessTimes then accessTimes[e] else dir[e].mtime;
          files := files + [Victim(e, |dir[e].data|, ts)];
        }
      }
    }

    method EvictLocked(needed: int, io: Ops.PutIO) returns (err: Option<Ops.PutError>, ghost order: seq<Victim>)
      modifies this
      ensures !io.listFails ==> ValidOrder(old(Snapshot()), io.hidden, order)
      ensures err == if io.listFails then Some(Ops.ListError)
                     else if order == [] then Some(Ops.NothingToEvict) else None
      ensures Snapshot() == if io.listFails then old(Snapshot())
                            else Evict(old(Snapshot()), order, needed, io.stuck)
    {
      hide IsBlob, ValidOrder;
      order := [];
      if io.listFails {
        return Some(Ops.ListError), order;
      }
      var listed := ListVictims(io.hidden);
      var files := SortByTime(listed);
      order := files;
      SortedListing(Snapshot(), io.hidden, listed, files);
      if |files| == 0 {
        return Some(Ops.NothingToEvict), order;
      }
      RemoveOldest(files, needed, io.stuck);
      return None, order;
    }

    /** The loop of `EvictLocked` over the sorted files. */
    method RemoveOldest(files: seq<Victim>, needed: int, stuck: set<Name>)
      modifies this
      ensures Snapshot() == Evict(old(Snapshot()), files, needed, stuck)
    {
      var freed := 0;
      for i := 0 to |files|
        invariant Evict(Snapshot(), files[i..], needed - freed, stuck) == Evict(old(Snapshot()), files, needed, stuck)
      {
        if freed >= needed {
          break;
        }
        var f := files[i];
        if f.name in stuck {
          continue;
        }
        dir := dir - {f.name};
        freed := freed + f.size;
        usedSize := usedSize - f.size;
        count := count - 1;
        accessTimes := accessTimes - {f.name};
      }
    }
  }

  /** A sorted permutation of a complete listing is a valid eviction order. */
  lemma SortedListing(s: State, hidden: set<Name>, listed: seq<Victim>, files: seq<Victim>)
    requires Distinct(listed) && Sorted(files) && multiset(files) == multiset(listed)
    requires forall v :: v in listed <==>
               v.name in Blobs(s.dir) && v.name !in hidden
               && v == Victim(v.name, |s.dir[v.name].data|, Stamp(s, v.name))
    ensures ValidOrder(s, hidden, files)
  {
    hide IsBlob;
    forall v
      ensures v in files <==> v in listed
    {
      assert v in files <==> v in multiset(files);
      assert v in listed <==> v in multiset(listed);
    }
    forall i, j | 0 <= i < j < |files|
      ensures files[i].name != files[j].name
    {
      if files[i].name == files[j].name {
        assert files[i] in listed && files[j] in listed;
        assert files[i] == files[j];
        TwiceInSequence(files, i, j);
        OnceInDistinct(listed, files[i]);
      }
    }
    forall n
      ensures n in Removable(files, {}) <==> n in Blobs(s.dir).Keys - hidden
    {
      RemovableNames(files, {}, n);
      if n in Blobs(s.dir) && n !in hidden {
        var v := Victim(n, |s.dir[n].data|, Stamp(s, n));
        assert v in files;
        var i :| 0 <= i < |files| && files[i] == v;
      }
    }
    forall i | 0 <= i < |files|
      ensures files[i] in listed
    {
    }
  }

  lemma TwiceInSequence(files: seq<Victim>, i: nat, j: nat)
    requires i < j < |files| && files[i] == files[j]
    ensures multiset(files)[files[i]] >= 2
  {
    assert files == files[..j] + files[j..];
    assert files[..j][i] in multiset(files[..j]) && files[j..][0] in multiset(files[j..]);
  }

  lemma {:induction false} OnceInDistinct(files: seq<Victim>, v: Victim)
    requires Distinct(files)
    ensures multiset(files)[v] <= 1
  {
    if files != [] {
      var n := |files| - 1;
      assert files == files[..n] + [files[n]];
      OnceInDistinct(files[..n], v);
      if v == files[n] {
        assert v !in files[..n];
      }
    }
  }
}
