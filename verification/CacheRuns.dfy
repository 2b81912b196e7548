/** Properties of whole runs of the cache: recency, accounting, what a hit returns, and stale access times. */
module CacheRuns {
  import opened BlobDir
  import opened Common
  import opened CacheSpec
  import opened CacheOps

  datatype Op =
    | PutOp(name: Name, data: Bytes, size: int, io: PutIO)
    | GetOp(name: Name, gio: GetIO)
    | RemoveOp(name: Name, rio: RemoveIO)

  /** One call at time `now`; `order` is the order of victims if the call evicts. */
  datatype Event = Event(op: Op, now: int, order: seq<Victim>)

  function Do(max: int, s: State, e: Event): State {
    match e.op
    case PutOp(name, data, size, io) => Put(max, s, name, data, size, io, e.order, e.now).0
    case GetOp(name, io) => Get(s, name, io, e.now).0
    case RemoveOp(name, io) => Remove(s, name, io).0
  }

  ghost predicate Allowed(max: int, s: State, e: Event) {
    && IsBlob(e.op.name)
    && (e.op.PutOp? ==> OrderOk(max, s, e.op.name, e.op.size, e.op.io, e.order))
  }

  function After(max: int, s: State, run: seq<Event>): State {
    if run == [] then s else Do(max, After(max, s, Init(run)), Last(run))
  }

  ghost predicate Legal(max: int, s: State, run: seq<Event>) {
    run == [] || (Legal(max, s, Init(run)) && Allowed(max, After(max, s, Init(run)), Last(run)))
  }

  /** The clock advances between any two calls. */
  predicate Ticking(run: seq<Event>) {
    forall i, j | 0 <= i < j < |run| :: run[i].now < run[j].now
  }

  predicate Clean(e: Event) {
    match e.op
    case PutOp(_, _, _, io) => io == NO_PUT_FAULTS
    case GetOp(_, io) => io == NO_GET_FAULTS
    case RemoveOp(_, _) => false
  }

  /** The call reaches a cached blob: a successful `Put` or a hit. */
  predicate Touches(max: int, s: State, e: Event) {
    match e.op
    case PutOp(name, data, size, io) => Put(max, s, name, data, size, io, e.order, e.now).1 == Ok
    case GetOp(name, io) => Get(s, name, io, e.now).1.Hit?
    case RemoveOp(_, _) => false
  }

  /** When each name was last touched during the run, whether or not it is still cached. */
  function LastTouch(max: int, s: State, run: seq<Event>): map<Name, int> {
    if run == [] then map[]
    else
      var h, e := LastTouch(max, s, Init(run)), Last(run);
      if Touches(max, After(max, s, Init(run)), e) then h[e.op.name := e.now] else h
  }

  // ---------- recency ----------

  /** Everything still cached was touched later than everything that is not. */
  ghost predicate AllNewer(live: set<Name>, h: map<Name, int>) {
    live <= h.Keys && forall c, e | c in live && e in h && e !in live :: h[e] < h[c]
  }

  /** The access times of the blobs are their last touches, and no two touches coincide. */
  ghost predicate Recorded(live: set<Name>, times: map<Name, int>, h: map<Name, int>, clock: int) {
    && live <= h.Keys && live <= times.Keys
    && (forall c | c in live :: times[c] == h[c])
    && (forall n | n in h :: h[n] <= clock)
    && (forall m, n | m in h && n in h && m != n :: h[m] != h[n])
  }

  ghost predicate Recent(s: State, h: map<Name, int>, clock: int) {
    Accounts(s) && Recorded(Live(s), s.touched, h, clock) && AllNewer(Live(s), h)
  }

  lemma TrimKeepsNewer(live: set<Name>, left: set<Name>, times: map<Name, int>, h: map<Name, int>,
                       clock: int, last: Name)
    requires Recorded(live, times, h, clock) && AllNewer(live, h)
    requires left <= live && OldestGo(live, left, times, last)
    ensures AllNewer(left, h)
  {
    forall c, e | c in left && e in h && e !in left
      ensures h[e] < h[c]
    {
      if e in live {
        assert times[e] <= times[last] <= times[c];
      }
    }
  }

  lemma TrimKeepsRecent(s: State, t: State, goal: int, h: map<Name, int>, clock: int)
    requires Recent(s, h, clock) && Trimmed(s, t, goal)
    ensures Recent(t, h, clock)
  {
    if t != s {
      var last :| OldestGo(Live(s), Live(t), s.touched, last);
      TrimKeepsNewer(Live(s), Live(t), s.touched, h, clock, last);
    }
  }

  lemma TouchKeepsNewer(live: set<Name>, times: map<Name, int>, h: map<Name, int>, clock: int,
                        name: Name, now: int)
    requires Recorded(live, times, h, clock) && AllNewer(live, h) && clock < now
    ensures Recorded(live + {name}, times[name := now], h[name := now], now)
    ensures AllNewer(live + {name}, h[name := now])
  {
  }

  lemma TouchKeepsRecent(s: State, t: State, h: map<Name, int>, clock: int, name: Name, now: int)
    requires Recent(s, h, clock) && clock < now && Accounts(t)
    requires Live(t) == Live(s) + {name} && t.touched == s.touched[name := now]
    ensures Recent(t, h[name := now], now)
  {
    TouchKeepsNewer(Live(s), s.touched, h, clock, name, now);
  }

  lemma RecentLater(s: State, h: map<Name, int>, clock: int, now: int)
    requires Recent(s, h, clock) && clock <= now
    ensures Recent(s, h, now)
  {
  }

  lemma RecentPut(max: int, s: State, h: map<Name, int>, clock: int, name: Name, data: Bytes, size: int,
                  order: seq<Victim>, now: int)
    requires Recent(s, h, clock) && clock < now && IsBlob(name)
    requires OrderOk(max, s, name, size, NO_PUT_FAULTS, order)
    ensures var (t, r) := Put(max, s, name, data, size, NO_PUT_FAULTS, order, now);
            Recent(t, if r == Ok then h[name := now] else h, now)
  {
    CleanPut(max, s, name, data, size, order, now);
    var t := Put(max, s, name, data, size, NO_PUT_FAULTS, order, now).0;
    if name in s.dir {
      assert Live(t) == Live(s) + {name};
      TouchKeepsRecent(s, t, h, clock, name, now);
    } else {
      var room := MakeRoom(max, s, size, NO_PUT_FAULTS, order).0;
      TrimKeepsRecent(s, room, max - size, h, clock);
      if size <= max {
        TouchKeepsRecent(room, t, h, clock, name, now);
      } else {
        RecentLater(room, h, clock, now);
      }
    }
  }

  lemma RecentStep(max: int, s: State, h: map<Name, int>, clock: int, e: Event)
    requires Recent(s, h, clock) && clock < e.now && Allowed(max, s, e) && Clean(e)
    ensures Recent(Do(max, s, e), if Touches(max, s, e) then h[e.op.name := e.now] else h, e.now)
  {
    match e.op
    case PutOp(name, data, size, _) => RecentPut(max, s, h, clock, name, data, size, e.order, e.now);
    case GetOp(name, _) =>
      if name in s.dir {
        assert Live(Do(max, s, e)) == Live(s) + {name};
        TouchKeepsRecent(s, Do(max, s, e), h, clock, name, e.now);
      } else {
        RecentLater(s, h, clock, e.now);
      }
  }

  /**
   From an empty directory and without faults or `Remove`, whatever the sizes: every cached blob
   was touched later than every blob that was touched before and is no longer cached.
   */
  lemma {:induction false} RecencyOverRuns(max: int, run: seq<Event>)
    requires Legal(max, EMPTY, run) && Ticking(run) && forall e | e in run :: Clean(e)
    ensures AllNewer(Live(After(max, EMPTY, run)), LastTouch(max, EMPTY, run))
  {
    RecentAlongRun(max, run, if run == [] then 0 else run[0].now - 1);
  }

  lemma {:induction false} RecentAlongRun(max: int, run: seq<Event>, start: int)
    requires Legal(max, EMPTY, run) && Ticking(run)
    requires forall e | e in run :: Clean(e) && start < e.now
    ensures Recent(After(max, EMPTY, run), LastTouch(max, EMPTY, run), if run == [] then start else Last(run).now)
  {
    if run == [] {
      assert Blobs(map[]) == map[];
    } else {
      RecentAlongRun(max, Init(run), start);
      assert Last(run) in run;
      RecentStep(max, After(max, EMPTY, Init(run)), LastTouch(max, EMPTY, Init(run)),
                 if Init(run) == [] then start else Last(Init(run)).now, Last(run));
    }
  }

  // ---------- accounting ----------

  /** The files a run replaces because a `Stat` failed to see them. */
  function ReplacedBy(max: int, s: State, run: seq<Event>): Debt {
    if run == [] then NO_DEBT
    else Plus(ReplacedBy(max, s, Init(run)), ReplacedAt(max, After(max, s, Init(run)), Last(run)))
  }

  function ReplacedAt(max: int, s: State, e: Event): Debt {
    if e.op.PutOp? then Replaced(max, s, e.op.name, e.op.size, e.op.io, e.order) else NO_DEBT
  }

  lemma StepOwes(max: int, s: State, d: Debt, e: Event)
    requires Owes(s, d) && Allowed(max, s, e)
    ensures Owes(Do(max, s, e), Plus(d, ReplacedAt(max, s, e)))
  {
    hide Owes, IsBlob, Replaced, Put, Get, Remove;
    match e.op
    case PutOp(name, data, size, io) =>
      PutOwes(max, s, d, name, data, size, io, e.order, e.now);
      if Finds(s, name, io) { FoundIsNotReplaced(max, s, name, size, io, e.order); }
    case GetOp(name, io) => GetOwes(s, d, name, io, e.now);
    case RemoveOp(name, io) => RemoveOwes(s, d, name, io);
  }

  /**
   Through any run and any failures the counters exceed the directory by exactly the replaced
   files, so that they describe it exactly when nothing was replaced.
   */
  lemma {:induction false} AccountsOverRuns(max: int, s: State, run: seq<Event>)
    requires Accounts(s) && Legal(max, s, run)
    ensures Owes(After(max, s, run), ReplacedBy(max, s, run))
    ensures Accounts(After(max, s, run)) <==> ReplacedBy(max, s, run).files == 0
  {
    hide Owes, Accounts, Do, Allowed, ReplacedAt;
    NothingOwed(s);
    RunOwes(max, s, run);
    OwingShows(After(max, s, run), ReplacedBy(max, s, run));
  }

  lemma {:induction false} RunOwes(max: int, s: State, run: seq<Event>)
    requires Owes(s, NO_DEBT) && Legal(max, s, run)
    ensures Owes(After(max, s, run), ReplacedBy(max, s, run))
  {
    hide Owes, Do, Allowed, ReplacedAt, Plus;
    if run != [] {
      var before := After(max, s, Init(run));
      RunOwes(max, s, Init(run));
      StepOwes(max, before, ReplacedBy(max, s, Init(run)), Last(run));
    }
  }

  // ---------- what hits return ----------

  /** For each name, the bytes of the latest `Put` that created its file. */
  function Stored(max: int, s: State, run: seq<Event>): map<Name, Bytes> {
    if run == [] then Contents(s.dir)
    else
      var h, before, e := Stored(max, s, Init(run)), After(max, s, Init(run)), Last(run);
      if e.op.PutOp? && !Finds(before, e.op.name, e.op.io) && Touches(max, before, e)
      then h[e.op.name := e.op.data]
      else h
  }

  /** Through any run and any faults, the cache holds a part of what was stored, unaltered. */
  lemma {:induction false} ContentsWereStored(max: int, s: State, run: seq<Event>)
    requires Legal(max, s, run)
    ensures Keeps(Stored(max, s, run), Contents(After(max, s, run).dir))
  {
    if run != [] {
      ContentsWereStored(max, s, Init(run));
      var before, e := After(max, s, Init(run)), Last(run);
      match e.op
      case PutOp(name, data, size, io) => PutOnContents(max, before, name, data, size, io, e.order, e.now);
      case GetOp(name, io) => GetOnContents(before, name, io, e.now);
      case RemoveOp(name, io) => RemoveOnContents(before, name, io);
    }
  }

  /** A hit returns exactly the bytes of the `Put` that created the file, and their length. */
  lemma HitReturnsStoredBytes(max: int, s: State, run: seq<Event>, name: Name, io: GetIO, now: int)
    requires Legal(max, s, run) && IsBlob(name)
    ensures var r := Get(After(max, s, run), name, io, now).1;
            r.Hit? ==> name in Stored(max, s, run) && r.data == Stored(max, s, run)[name] && r.size == |r.data|
  {
    ContentsWereStored(max, s, run);
  }

  // ---------- files and restarts ----------

  /** For each name, the file as the latest `Put` that created it left it. */
  function StoredFiles(max: int, s: State, run: seq<Event>): Dir {
    if run == [] then Blobs(s.dir)
    else
      var h, before, e := StoredFiles(max, s, Init(run)), After(max, s, Init(run)), Last(run);
      if e.op.PutOp? && !Finds(before, e.op.name, e.op.io) && Touches(max, before, e)
      then h[e.op.name := File(e.op.data, e.now)]
      else h
  }

  ghost predicate PartOf(m: Dir, h: Dir) {
    m.Keys <= h.Keys && forall n | n in m :: m[n] == h[n]
  }

  lemma WriteOnFiles(s: State, name: Name, data: Bytes, io: PutIO, now: int)
    requires IsBlob(name)
    ensures var (t, r) := Write(s, name, data, io, now);
            Blobs(t.dir) == if r == Ok then Blobs(s.dir)[name := File(data, now)] else Blobs(s.dir)
  {
    hide IsBlob, TmpName, Total;
    TmpLeavesBlobs(s.dir, name, File(data, now));
    TmpLeavesBlobs(s.dir, name, File(io.partial, now));
    if name in s.dir {
      RenameReplacesBlob(s.dir, name, File(data, now));
    } else {
      RenameAddsBlob(s.dir, name, File(data, now));
    }
  }

  lemma PutOnFiles(max: int, s: State, name: Name, data: Bytes, size: int, io: PutIO, order: seq<Victim>, now: int,
                   h: Dir)
    requires IsBlob(name) && OrderOk(max, s, name, size, io, order) && PartOf(Blobs(s.dir), h)
    ensures var (t, r) := Put(max, s, name, data, size, io, order, now);
            PartOf(Blobs(t.dir), if r == Ok && !Finds(s, name, io) then h[name := File(data, now)] else h)
  {
    hide IsBlob, Write, ValidOrder, MakeRoom, Blobs;
    if !Finds(s, name, io) {
      RoomLoses(max, s, size, io, order);
      var room := MakeRoom(max, s, size, io, order).0;
      var gone :| Loses(s, room, gone);
      BlobsMinus(s.dir, gone);
      WriteOnFiles(room, name, data, io, now);
    }
  }

  /**
   Through any run and any failures the files in the cache are as their `Put`s left them, with the
   time of that `Put` as modification time.
   */
  lemma {:induction false} FilesWereStored(max: int, s: State, run: seq<Event>)
    requires Legal(max, s, run)
    ensures PartOf(Blobs(After(max, s, run).dir), StoredFiles(max, s, run))
  {
    if run != [] {
      hide IsBlob, Put, Blobs, OrderOk;
      FilesWereStored(max, s, Init(run));
      var before, e := After(max, s, Init(run)), Last(run);
      match e.op
      case PutOp(name, data, size, io) =>
        PutOnFiles(max, before, name, data, size, io, e.order, e.now, StoredFiles(max, s, Init(run)));
      case GetOp(name, io) =>
      case RemoveOp(name, io) => BlobsMinus(before.dir, {name});
    }
  }

  /**
   A restart forgets the reads: whatever the run before it, the first eviction after a complete scan
   takes the blobs that were stored longest ago.
   */
  lemma {:induction false} RestartEvictsByStorage(max: int, s: State, run: seq<Event>, order: seq<Victim>, needed: int,
                                                  n: Name, m: Name)
    requires Legal(max, s, run)
    requires ValidOrder(Scan(After(max, s, run).dir, false, {}), {}, order)
    requires var left := Evict(Scan(After(max, s, run).dir, false, {}), order, needed, {}).dir;
             n in After(max, s, run).dir && IsBlob(n) && n !in left && m in left && IsBlob(m)
    ensures var h := StoredFiles(max, s, run);
            n in h && m in h && h[n].mtime <= h[m].mtime
  {
    hide IsBlob, ValidOrder, Evict, After, Legal, StoredFiles;
    var r := Scan(After(max, s, run).dir, false, {});
    FilesWereStored(max, s, run);
    assert Blobs(r.dir) - {} == Blobs(r.dir);
    OlderGoFirst(r, {}, order, needed, {}, n, m);
    assert n in Blobs(r.dir) && m in Blobs(r.dir);
  }

  /** What the caller of each operation is told. */
  datatype Answer = PutAnswer(put: PutResult) | GetAnswer(get: GetResult) | RemoveAnswer(remove: RemoveResult)

  function AnswerTo(max: int, s: State, e: Event): Answer {
    match e.op
    case PutOp(name, data, size, io) => PutAnswer(Put(max, s, name, data, size, io, e.order, e.now).1)
    case GetOp(name, io) => GetAnswer(Get(s, name, io, e.now).1)
    case RemoveOp(name, io) => RemoveAnswer(Remove(s, name, io).1)
  }

  function Answers(max: int, s: State, run: seq<Event>): seq<Answer> {
    if run == [] then [] else Answers(max, s, Init(run)) + [AnswerTo(max, After(max, s, Init(run)), Last(run))]
  }

  lemma StepIgnoresStale(max: int, s: State, t: State, e: Event)
    requires SameView(s, t) && Allowed(max, s, e)
    ensures Allowed(max, t, e) && SameView(Do(max, s, e), Do(max, t, e)) && AnswerTo(max, s, e) == AnswerTo(max, t, e)
  {
    hide SameView, Put, Get, Remove, OrderOk, IsBlob;
    match e.op
    case PutOp(name, data, size, io) => PutIgnoresStale(max, s, t, name, data, size, io, e.order, e.now);
    case GetOp(name, io) => GetAndRemoveIgnoreStale(s, t, name, io, RemoveIO(false, false), e.now);
    case RemoveOp(name, io) => GetAndRemoveIgnoreStale(s, t, name, NO_GET_FAULTS, io, e.now);
  }

  /**
   Access times of absent blobs never influence a run: the same calls are possible, every call
   gets the same answer, and the final states show the same.
   */
  lemma {:induction false} StaleTimesHarmless(max: int, s: State, t: State, run: seq<Event>)
    requires SameView(s, t) && Legal(max, s, run)
    ensures Legal(max, t, run) && SameView(After(max, s, run), After(max, t, run))
    ensures Answers(max, s, run) == Answers(max, t, run)
  {
    hide SameView, Do, AnswerTo, Allowed;
    if run != [] {
      StaleTimesHarmless(max, s, t, Init(run));
      StepIgnoresStale(max, After(max, s, Init(run)), After(max, t, Init(run)), Last(run));
    }
  }
}
