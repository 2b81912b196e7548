/** The cache operations, each as one step on the state, and what one step guarantees. */
module CacheOps {
  import opened BlobDir
  import opened Common
  import opened CacheSpec

  datatype PutError = ListError | NothingToEvict | NoSpace | CreateError | CopyError | RenameError
  datatype PutResult = Ok | Err(why: PutError)

  /**
   The outcome of every file operation of one `Put`: `hidden` entries cannot be examined, `stuck`
   files cannot be removed, and a failed copy leaves `partial` in the temporary file.
   */
  datatype PutIO = PutIO(statFails: bool, listFails: bool, hidden: set<Name>, stuck: set<Name>,
                         createFails: bool, copyFails: bool, partial: Bytes,
                         renameFails: bool, cleanupFails: bool)
  datatype GetIO = GetIO(statFails: bool, openFails: bool)
  datatype RemoveIO = RemoveIO(statFails: bool, removeFails: bool)

  const NO_PUT_FAULTS := PutIO(false, false, {}, {}, false, false, [], false, false)
  const NO_GET_FAULTS := GetIO(false, false)

  datatype GetResult = Miss | Hit(data: Bytes, size: int)
  datatype RemoveResult = Gone | RemoveError

  /** `Put` finds the blob and only touches it. */
  predicate Finds(s: State, name: Name, io: PutIO) {
    name in s.dir && !io.statFails
  }

  predicate MustEvict(max: int, s: State, size: int, io: PutIO) {
    s.used + size > max && !io.listFails
  }

  function MakeRoom(max: int, s: State, size: int, io: PutIO, order: seq<Victim>): (State, Option<PutError>) {
    if s.used + size <= max then (s, None)
    else if io.listFails then (s, Some(ListError))
    else if order == [] then (s, Some(NothingToEvict))
    else
      var t := Evict(s, order, s.used + size - max, io.stuck);
      (t, if t.used + size > max then Some(NoSpace) else None)
  }

  /** Deletes a temporary file, unless that fails. */
  function Cleanup(dir: Dir, tmp: Name, io: PutIO): Dir {
    if io.cleanupFails then dir else dir - {tmp}
  }

  function Write(s: State, name: Name, data: Bytes, io: PutIO, now: int): (State, PutResult) {
    var tmp := TmpName(name);
    if io.createFails then (s, Err(CreateError))
    else if io.copyFails then
      (s.(dir := Cleanup(s.dir[tmp := File(io.partial, now)], tmp, io)), Err(CopyError))
    else if io.renameFails then
      (s.(dir := Cleanup(s.dir[tmp := File(data, now)], tmp, io)), Err(RenameError))
    else
      (State((s.dir - {tmp})[name := File(data, now)], s.used + |data|, s.count + 1,
             s.touched[name := now]), Ok)
  }

  /** `order` is the order in which the sorted directory listing presents the victims. */
  function Put(max: int, s: State, name: Name, data: Bytes, size: int, io: PutIO,
               order: seq<Victim>, now: int): (State, PutResult)
  {
    if Finds(s, name, io) then (s.(touched := s.touched[name := now]), Ok)
    else
      match MakeRoom(max, s, size, io, order)
      case (t, Some(e)) => (t, Err(e))
      case (t, None) => Write(t, name, data, io, now)
  }

  function Get(s: State, name: Name, io: GetIO, now: int): (State, GetResult) {
    if name !in s.dir || io.statFails || io.openFails then (s, Miss)
    else (s.(touched := s.touched[name := now]), Hit(s.dir[name].data, |s.dir[name].data|))
  }

  function Remove(s: State, name: Name, io: RemoveIO): (State, RemoveResult) {
    if io.statFails then (s, RemoveError)
    else if name !in s.dir then (s, Gone)
    else if io.removeFails then (s, RemoveError)
    else (Drop(s, Victim(name, |s.dir[name].data|, 0)), Gone)
  }

  /** Evictions of this step follow the access times. */
  ghost predicate OrderOk(max: int, s: State, name: Name, size: int, io: PutIO, order: seq<Victim>) {
    !Finds(s, name, io) && MustEvict(max, s, size, io) ==> ValidOrder(s, io.hidden, order)
  }

  // ---------- accounting ----------

  /**
   A failing `Stat` hides a blob that also survives the eviction, and nothing fails from then on:
   the new file replaces the old one.
   */
  predicate Overwrites(max: int, s: State, name: Name, size: int, io: PutIO, order: seq<Victim>) {
    var (room, e) := MakeRoom(max, s, size, io, order);
    && io.statFails
    && e == None && name in room.dir
    && !io.createFails && !io.copyFails && !io.renameFails
  }

  /** The file a `Put` replaces, if it does. */
  function Replaced(max: int, s: State, name: Name, size: int, io: PutIO, order: seq<Victim>): Debt {
    if Overwrites(max, s, name, size, io, order)
    then Excess(|MakeRoom(max, s, size, io, order).0.dir[name].data|, 1) else NO_DEBT
  }

  lemma RoomLoses(max: int, s: State, size: int, io: PutIO, order: seq<Victim>)
    requires MustEvict(max, s, size, io) ==> ValidOrder(s, io.hidden, order)
    ensures exists gone :: Loses(s, MakeRoom(max, s, size, io, order).0, gone)
  {
    if s.used + size > max && !io.listFails && order != [] {
      EvictLoses(s, order, s.used + size - max, io.stuck);
      assert MakeRoom(max, s, size, io, order).0 == Evict(s, order, s.used + size - max, io.stuck);
    } else {
      assert s.dir - {} == s.dir && s.touched - {} == s.touched;
      assert MakeRoom(max, s, size, io, order).0 == s;
      assert Loses(s, s, {});
    }
  }

  lemma RoomOwes(max: int, s: State, d: Debt, size: int, io: PutIO, order: seq<Victim>)
    requires Owes(s, d) && (MustEvict(max, s, size, io) ==> ValidOrder(s, io.hidden, order))
    ensures Owes(MakeRoom(max, s, size, io, order).0, d)
  {
    if s.used + size > max && !io.listFails && order != [] {
      EvictOwes(s, d, order, s.used + size - max, io.stuck);
    }
  }

  lemma TmpLeavesBlobs(dir: Dir, name: Name, f: File)
    ensures Blobs(dir - {TmpName(name)}) == Blobs(dir)
    ensures Blobs(dir[TmpName(name) := f]) == Blobs(dir)
    ensures Blobs(dir[TmpName(name) := f] - {TmpName(name)}) == Blobs(dir)
  {
    NamesKeptApart("", name);
  }

  lemma TmpLeavesName(dir: Dir, name: Name, f: File)
    requires IsBlob(name)
    ensures name in dir <==> name in dir - {TmpName(name)}
    ensures name in dir <==> name in dir[TmpName(name) := f]
  {
    NamesKeptApart("", name);
  }

  lemma RenameSwap(dir: Dir, name: Name, tmp: Name, f: File)
    requires name != tmp
    ensures (dir - {tmp})[name := f] == dir[name := f] - {tmp}
  {
  }

  /** Renaming the temporary file adds one blob and no other. */
  lemma RenameAddsBlob(dir: Dir, name: Name, f: File)
    requires IsBlob(name) && name !in dir
    ensures var after := (dir - {TmpName(name)})[name := f];
            && Blobs(after) == Blobs(dir)[name := f]
            && Total(Blobs(after)) == Total(Blobs(dir)) + |f.data|
            && |Blobs(after)| == |Blobs(dir)| + 1
  {
    NamesKeptApart("", name);
    RenameSwap(dir, name, TmpName(name), f);
    TmpLeavesBlobs(dir[name := f], name, f);
    BlobAdded(dir, name, f);
  }

  /** Renaming the temporary file over a blob replaces that blob and no other. */
  lemma RenameReplacesBlob(dir: Dir, name: Name, f: File)
    requires IsBlob(name) && name in dir
    ensures var after := (dir - {TmpName(name)})[name := f];
            && Blobs(after) == Blobs(dir)[name := f]
            && Total(Blobs(after)) + |dir[name].data| == Total(Blobs(dir)) + |f.data|
            && |Blobs(after)| == |Blobs(dir)|
  {
    hide IsBlob, Blobs, Total, TmpName;
    NamesKeptApart("", name);
    RenameSwap(dir, name, TmpName(name), f);
    TmpLeavesBlobs(dir[name := f], name, f);
    BlobReplaced(dir, name, f);
  }

  /** A write leaves a debt exactly when it completes over an existing blob. */
  lemma WriteOwes(s: State, d: Debt, name: Name, data: Bytes, io: PutIO, now: int)
    requires Owes(s, d) && IsBlob(name)
    ensures var (t, r) := Write(s, name, data, io, now);
            Owes(t, if r == Ok && name in s.dir then Plus(d, Excess(|s.dir[name].data|, 1)) else d)
  {
    hide IsBlob, Total, TmpName, Blobs;
    TmpLeavesBlobs(s.dir, name, File(data, now));
    TmpLeavesBlobs(s.dir, name, File(io.partial, now));
    if name in s.dir {
      RenameReplacesBlob(s.dir, name, File(data, now));
    } else {
      RenameAddsBlob(s.dir, name, File(data, now));
    }
  }

  /** Under any failures, what a `Put` leaves miscounted is exactly the file it replaces. */
  lemma PutOwes(max: int, s: State, d: Debt, name: Name, data: Bytes, size: int, io: PutIO,
                order: seq<Victim>, now: int)
    requires Owes(s, d) && IsBlob(name) && OrderOk(max, s, name, size, io, order)
    ensures Owes(Put(max, s, name, data, size, io, order, now).0,
                 Plus(d, if Finds(s, name, io) then NO_DEBT else Replaced(max, s, name, size, io, order)))
  {
    hide IsBlob, ValidOrder, Evict;
    if !Finds(s, name, io) {
      var (room, e) := MakeRoom(max, s, size, io, order);
      RoomOwes(max, s, d, size, io, order);
      SurvivorWasThere(max, s, name, size, io, order);
      if e == None {
        WriteOwes(room, d, name, data, io, now);
      }
    }
  }

  lemma SurvivorWasThere(max: int, s: State, name: Name, size: int, io: PutIO, order: seq<Victim>)
    requires MustEvict(max, s, size, io) ==> ValidOrder(s, io.hidden, order)
    ensures name in MakeRoom(max, s, size, io, order).0.dir ==> name in s.dir
  {
    RoomLoses(max, s, size, io, order);
  }

  lemma FoundIsNotReplaced(max: int, s: State, name: Name, size: int, io: PutIO, order: seq<Victim>)
    requires Finds(s, name, io)
    ensures !Overwrites(max, s, name, size, io, order) && Replaced(max, s, name, size, io, order) == NO_DEBT
  {
  }

  /** The counters stay right through every `Put` but one that overwrites, whatever else fails. */
  lemma PutAccountsExactly(max: int, s: State, name: Name, data: Bytes, size: int, io: PutIO,
                           order: seq<Victim>, now: int)
    requires Accounts(s) && IsBlob(name) && OrderOk(max, s, name, size, io, order)
    ensures Accounts(Put(max, s, name, data, size, io, order, now).0)
            <==> !Overwrites(max, s, name, size, io, order)
  {
    hide Put, MakeRoom, IsBlob, OrderOk, Owes, Accounts, Overwrites;
    var d := if Finds(s, name, io) then NO_DEBT else Replaced(max, s, name, size, io, order);
    NothingOwed(s);
    PutOwes(max, s, NO_DEBT, name, data, size, io, order, now);
    OwingShows(Put(max, s, name, data, size, io, order, now).0, d);
    if Finds(s, name, io) { FoundIsNotReplaced(max, s, name, size, io, order); }
  }

  /** One byte stored under a name that `Stat` fails to report is counted twice. */
  lemma OverwriteBreaksAccounting(name: Name)
    requires IsBlob(name)
    ensures var s := State(map[name := File([1], 0)], 1, 1, map[name := 0]);
            var io := NO_PUT_FAULTS.(statFails := true);
            && Accounts(s)
            && Put(9, s, name, [1], 1, io, [], 5).1 == Ok
            && Put(9, s, name, [1], 1, io, [], 5).0.used == 2
            && !Accounts(Put(9, s, name, [1], 1, io, [], 5).0)
  {
    var d := map[name := File([1], 0)];
    BlobAdded(map[], name, File([1], 0));
    assert map[][name := File([1], 0)] == d;
    assert Blobs(map[]) == map[];
    var s := State(d, 1, 1, map[name := 0]);
    PutAccountsExactly(9, s, name, [1], 1, NO_PUT_FAULTS.(statFails := true), [], 5);
  }

  lemma GetOwes(s: State, d: Debt, name: Name, io: GetIO, now: int)
    requires Owes(s, d)
    ensures Owes(Get(s, name, io, now).0, d)
  {
  }

  /** `Remove` records what it removes, whatever fails. */
  lemma RemoveOwes(s: State, d: Debt, name: Name, io: RemoveIO)
    requires Owes(s, d) && IsBlob(name)
    ensures Owes(Remove(s, name, io).0, d)
  {
    if name in s.dir {
      BlobRemoved(s.dir, name);
    }
  }

  /** The temporary file outlives a `Put` that created it only when cleaning up fails. */
  lemma TemporaryFileGone(s: State, name: Name, data: Bytes, io: PutIO, now: int)
    requires IsBlob(name) && !io.createFails
    ensures var (t, r) := Write(s, name, data, io, now);
            TmpName(name) in t.dir <==> r != Ok && io.cleanupFails
  {
    NamesKeptApart("", name);
  }

  // ---------- sufficiency of eviction ----------

  lemma NothingListed(s: State)
    requires Accounts(s) && ValidOrder(s, {}, [])
    ensures Live(s) == {}
  {
    assert Live(s) - {} == Live(s);
  }

  lemma EmptyUsesNothing(s: State)
    requires Accounts(s)
    ensures s.used >= 0 && (Live(s) == {} ==> s.used == 0)
  {
    if Live(s) == {} { assert Blobs(s.dir) == map[]; }
  }

  lemma NothingTrimmed(s: State, goal: int)
    requires Accounts(s)
    ensures Trimmed(s, s, goal)
  {
  }

  /** Making room evicts no more than needed, and works exactly when an empty cache has room. */
  lemma RoomIffFits(max: int, s: State, size: int, order: seq<Victim>)
    requires Accounts(s) && (s.used + size > max ==> ValidOrder(s, {}, order))
    ensures var (t, e) := MakeRoom(max, s, size, NO_PUT_FAULTS, order);
            && Trimmed(s, t, max - size)
            && (e == None <==> size <= max)
            && (e == None ==> t.used + size <= max)
            && (e != None ==> Live(t) == {})
  {
    hide IsBlob, ValidOrder, Evict, Trimmed, Blobs, Accounts;
    NothingTrimmed(s, max - size);
    EmptyUsesNothing(s);
    if s.used + size > max {
      if order == [] {
        NothingListed(s);
      } else {
        EvictTrims(s, order, s.used + size - max);
        EvictReaches(s, order, s.used + size - max);
        var t := Evict(s, order, s.used + size - max, {});
        EmptyUsesNothing(t);
      }
    }
  }

  /**
   Without faults, `Put` of an absent blob succeeds exactly when the declared size is within the
   limit, and then exceeds the limit at most by what was written beyond the declared size. A
   refused blob has emptied the cache.
   */
  lemma FaultFreePutSucceedsIffFits(max: int, s: State, name: Name, data: Bytes, size: int,
                                    order: seq<Victim>, now: int)
    requires Accounts(s) && IsBlob(name) && name !in s.dir
    requires OrderOk(max, s, name, size, NO_PUT_FAULTS, order)
    ensures var (t, r) := Put(max, s, name, data, size, NO_PUT_FAULTS, order, now);
            && (r == Ok <==> size <= max)
            && (r == Ok ==> t.used <= max + |data| - size && name in t.dir && t.dir[name].data == data)
            && (r != Ok ==> Live(t) == {})
  {
    RoomIffFits(max, s, size, order);
  }

  /** `t` is `s` with `data` stored as a new blob `name`. */
  ghost predicate Wrote(s: State, t: State, name: Name, data: Bytes, now: int) {
    && Live(t) == Live(s) + {name}
    && (forall n | n in Live(s) && n != name :: t.dir[n] == s.dir[n])
    && t.dir[name].data == data
    && t.touched == s.touched[name := now]
  }

  lemma CleanWrite(s: State, name: Name, data: Bytes, now: int)
    requires Accounts(s) && IsBlob(name) && name !in s.dir
    ensures var (t, r) := Write(s, name, data, NO_PUT_FAULTS, now);
            r == Ok && Accounts(t) && Wrote(s, t, name, data, now)
  {
    hide IsBlob, TmpName, Total;
    NamesKeptApart("", name);
    RenameAddsBlob(s.dir, name, File(data, now));
  }

  /** What a fault-free `Put` does to the set of blobs, their times and the counters. */
  lemma CleanPut(max: int, s: State, name: Name, data: Bytes, size: int, order: seq<Victim>, now: int)
    requires Accounts(s) && IsBlob(name) && OrderOk(max, s, name, size, NO_PUT_FAULTS, order)
    ensures var (t, r) := Put(max, s, name, data, size, NO_PUT_FAULTS, order, now);
            var (room, e) := MakeRoom(max, s, size, NO_PUT_FAULTS, order);
            && Accounts(t)
            && (name in s.dir ==> r == Ok && t == s.(touched := s.touched[name := now]))
            && (name !in s.dir ==> Trimmed(s, room, max - size))
            && (name !in s.dir && size > max ==> r != Ok && t == room && Live(t) == {})
            && (name !in s.dir && size <= max ==>
                  r == Ok && room.used + size <= max && Wrote(room, t, name, data, now))
  {
    if name !in s.dir {
      RoomIffFits(max, s, size, order);
      var room := MakeRoom(max, s, size, NO_PUT_FAULTS, order).0;
      if size <= max {
        SurvivorWasThere(max, s, name, size, NO_PUT_FAULTS, order);
        CleanWrite(room, name, data, now);
      }
    }
  }

  /** Why a `Put` fails: the first thing that goes wrong, in the order of the steps. */
  lemma RefusalReasons(max: int, s: State, name: Name, data: Bytes, size: int, io: PutIO, order: seq<Victim>, now: int)
    requires OrderOk(max, s, name, size, io, order) && !Finds(s, name, io)
    ensures var (t, r) := Put(max, s, name, data, size, io, order, now);
            var full, nothing := s.used + size > max, forall n | n in s.dir && IsBlob(n) :: n in io.hidden;
            var short := full && (io.listFails || nothing || t.used + size > max);
            && (r == Err(ListError) <==> full && io.listFails)
            && (r == Err(NothingToEvict) <==> full && !io.listFails && nothing)
            && (r == Err(NoSpace) ==> full && !io.listFails && !nothing && t.used + size > max)
            && (r == Err(CreateError) ==> io.createFails)
            && (r == Err(CopyError) ==> !io.createFails && io.copyFails)
            && (r == Err(RenameError) ==> !io.createFails && !io.copyFails && io.renameFails)
            && (r == Ok ==> !io.createFails && !io.copyFails && !io.renameFails)
            && (r != Ok && !(r.why in {ListError, NothingToEvict, NoSpace}) ==> !short)
  {
    hide IsBlob, Evict, Total, TmpName;
    if s.used + size > max && !io.listFails {
      if order == [] {
        assert Blobs(s.dir).Keys - io.hidden == {};
        forall n | n in s.dir && IsBlob(n) ensures n in io.hidden {
          assert n in Blobs(s.dir).Keys;
          assert n in io.hidden || n in Blobs(s.dir).Keys - io.hidden;
        }
      } else {
        RemovableNames(order, {}, order[0].name);
        assert order[0].name in Blobs(s.dir).Keys - io.hidden;
      }
    }
  }

  // ---------- the cache as a partial map ----------

  /** What the cache holds, as clients see it. */
  function Contents(dir: Dir): map<Name, Bytes> {
    map n | n in dir && IsBlob(n) :: dir[n].data
  }

  ghost predicate Keeps(before: map<Name, Bytes>, after: map<Name, Bytes>) {
    after.Keys <= before.Keys && forall n | n in after :: after[n] == before[n]
  }

  /** `after` is what is left of `before`, with `name` holding `data`. */
  ghost predicate Gains(before: map<Name, Bytes>, after: map<Name, Bytes>, name: Name, data: Bytes) {
    && name in after && after[name] == data
    && (forall n | n in after && n != name :: n in before && after[n] == before[n])
  }

  lemma WriteOnContents(s: State, name: Name, data: Bytes, io: PutIO, now: int)
    requires IsBlob(name)
    ensures var (t, r) := Write(s, name, data, io, now);
            && (r == Ok ==> Gains(Contents(s.dir), Contents(t.dir), name, data))
            && (r != Ok ==> Contents(t.dir) == Contents(s.dir))
  {
    NamesKeptApart("", name);
  }

  /** A `Put` keeps every survivor's bytes and shows its own blob exactly when it stored it. */
  lemma PutOnContents(max: int, s: State, name: Name, data: Bytes, size: int, io: PutIO,
                      order: seq<Victim>, now: int)
    requires IsBlob(name) && OrderOk(max, s, name, size, io, order)
    ensures var (t, r) := Put(max, s, name, data, size, io, order, now);
            var before, after := Contents(s.dir), Contents(t.dir);
            && (Finds(s, name, io) ==> r == Ok && after == before)
            && (!Finds(s, name, io) && r == Ok ==> Gains(before, after, name, data))
            && (r != Ok ==> Keeps(before, after))
  {
    if !Finds(s, name, io) {
      RoomLoses(max, s, size, io, order);
      var (room, e) := MakeRoom(max, s, size, io, order);
      assert Keeps(Contents(s.dir), Contents(room.dir));
      WriteOnContents(room, name, data, io, now);
    }
  }

  /** A hit returns the stored bytes and their length; without faults a miss means absence. */
  lemma GetOnContents(s: State, name: Name, io: GetIO, now: int)
    requires IsBlob(name)
    ensures var (t, r) := Get(s, name, io, now);
            && t.dir == s.dir
            && (r.Hit? ==> name in Contents(s.dir) && r.data == Contents(s.dir)[name] && r.size == |r.data|)
            && (io == NO_GET_FAULTS ==> (r.Miss? <==> name !in Contents(s.dir)))
  {
  }

  /** `Remove` takes the blob away when it reports success, and keeps everything when it fails. */
  lemma RemoveOnContents(s: State, name: Name, io: RemoveIO)
    requires IsBlob(name)
    ensures var (t, r) := Remove(s, name, io);
            && Contents(t.dir) == (if r == Gone then Contents(s.dir) - {name} else Contents(s.dir))
            && (r == RemoveError <==> io.statFails || (name in s.dir && io.removeFails))
  {
  }

  // ---------- what no operation can see ----------

  /**
   `s` and `t` show the same files, counters and ages of blobs. They may differ in access times of
   names without a blob, and in modification times that an access time overrides.
   */
  predicate SameView(s: State, t: State) {
    && s.used == t.used && s.count == t.count
    && s.dir.Keys == t.dir.Keys
    && (forall n | n in s.dir :: s.dir[n].data == t.dir[n].data)
    && (forall n | n in s.dir && IsBlob(n) :: (n in s.touched <==> n in t.touched) && Stamp(s, n) == Stamp(t, n))
  }

  lemma {:induction false} EvictIgnoresStale(s: State, t: State, order: seq<Victim>, needed: int, stuck: set<Name>)
    requires SameView(s, t)
    ensures SameView(Evict(s, order, needed, stuck), Evict(t, order, needed, stuck))
    decreases |order|
  {
    hide IsBlob;
    if order == [] || needed <= 0 {
    } else if order[0].name in stuck {
      EvictIgnoresStale(s, t, order[1..], needed, stuck);
    } else {
      EvictIgnoresStale(Drop(s, order[0]), Drop(t, order[0]), order[1..], needed - order[0].size, stuck);
    }
  }

  lemma OrderIgnoresStale(s: State, t: State, hidden: set<Name>, order: seq<Victim>)
    requires SameView(s, t)
    ensures ValidOrder(s, hidden, order) <==> ValidOrder(t, hidden, order)
  {
  }

  lemma TmpIgnoresStale(s: State, t: State, tmp: Name, f: File)
    requires SameView(s, t) && !IsBlob(tmp)
    ensures SameView(s.(dir := s.dir[tmp := f]), t.(dir := t.dir[tmp := f]))
    ensures SameView(s.(dir := s.dir - {tmp}), t.(dir := t.dir - {tmp}))
  {
    hide IsBlob;
  }

  lemma StoreIgnoresStale(s: State, t: State, name: Name, f: File, used: int, count: int, now: int)
    requires SameView(s, t)
    ensures SameView(State(s.dir[name := f], used, count, s.touched[name := now]),
                     State(t.dir[name := f], used, count, t.touched[name := now]))
  {
    hide IsBlob;
  }

  lemma WriteIgnoresStale(s: State, t: State, name: Name, data: Bytes, io: PutIO, now: int)
    requires SameView(s, t) && IsBlob(name)
    ensures SameView(Write(s, name, data, io, now).0, Write(t, name, data, io, now).0)
    ensures Write(s, name, data, io, now).1 == Write(t, name, data, io, now).1
  {
    hide IsBlob, TmpName, SameView;
    var tmp := TmpName(name);
    NamesKeptApart("", name);
    TmpIgnoresStale(s, t, tmp, File(io.partial, now));
    TmpIgnoresStale(s.(dir := s.dir[tmp := File(io.partial, now)]), t.(dir := t.dir[tmp := File(io.partial, now)]), tmp,
                    File(data, now));
    TmpIgnoresStale(s, t, tmp, File(data, now));
    TmpIgnoresStale(s.(dir := s.dir[tmp := File(data, now)]), t.(dir := t.dir[tmp := File(data, now)]), tmp,
                    File(data, now));
    SameCounters(s, t);
    StoreIgnoresStale(s.(dir := s.dir - {tmp}), t.(dir := t.dir - {tmp}), name, File(data, now), s.used + |data|,
                      s.count + 1, now);
  }

  lemma SameCounters(s: State, t: State)
    ensures SameView(s, t) ==> s.used == t.used && s.count == t.count
  {
  }

  lemma PutIgnoresStale(max: int, s: State, t: State, name: Name, data: Bytes, size: int, io: PutIO,
                        order: seq<Victim>, now: int)
    requires SameView(s, t) && IsBlob(name)
    ensures OrderOk(max, s, name, size, io, order) <==> OrderOk(max, t, name, size, io, order)
    ensures var (s', r), (t', q) := Put(max, s, name, data, size, io, order, now),
                                    Put(max, t, name, data, size, io, order, now);
            SameView(s', t') && r == q
  {
    hide IsBlob, SameView, Write, ValidOrder;
    SameCounters(s, t);
    FindsAlike(s, t, name, io);
    TouchIgnoresStale(s, t, name, now);
    OrderIgnoresStale(s, t, io.hidden, order);
    EvictIgnoresStale(s, t, order, s.used + size - max, io.stuck);
    SameCounters(Evict(s, order, s.used + size - max, io.stuck), Evict(t, order, s.used + size - max, io.stuck));
    WriteIgnoresStale(MakeRoom(max, s, size, io, order).0, MakeRoom(max, t, size, io, order).0, name, data, io, now);
  }

  lemma TouchIgnoresStale(s: State, t: State, name: Name, now: int)
    requires SameView(s, t)
    ensures SameView(s.(touched := s.touched[name := now]), t.(touched := t.touched[name := now]))
  {
    hide IsBlob;
  }

  lemma FindsAlike(s: State, t: State, name: Name, io: PutIO)
    requires SameView(s, t)
    ensures Finds(s, name, io) <==> Finds(t, name, io)
  {
  }

  lemma GetAndRemoveIgnoreStale(s: State, t: State, name: Name, gio: GetIO, rio: RemoveIO, now: int)
    requires SameView(s, t) && IsBlob(name)
    ensures SameView(Get(s, name, gio, now).0, Get(t, name, gio, now).0)
    ensures Get(s, name, gio, now).1 == Get(t, name, gio, now).1
    ensures SameView(Remove(s, name, rio).0, Remove(t, name, rio).0)
    ensures Remove(s, name, rio).1 == Remove(t, name, rio).1
  {
    hide IsBlob;
  }
}
