/**
 Concurrent callers see a cache that behaves as if every operation took place at once: each
 interleaving of single steps has the effect of a sequential run of whole operations.
 */
module CacheLinear {
  import opened BlobDir
  import opened Common
  import opened CacheSpec
  import opened CacheOps
  import opened CacheRuns
  import Steps = CacheSteps

  /**
   The operations completed so far and the state they left, and what is known of the operation
   under way: its arguments and how its file operations have ended.
   */
  datatype Trail = Trail(run: seq<Event>, base: State, name: Name, size: int, data: Bytes, io: PutIO, rio: RemoveIO,
                         order: seq<Victim>, now: int)

  /** What a step adds to the knowledge about the operation under way. */
  function Noted(t: Trail, p: Steps.Phase, a: Steps.Action): Trail {
    match a
    case PutBegin(name, size, statFails, now) =>
      t.(name := name, size := size, data := [], io := NO_PUT_FAULTS.(statFails := statFails), order := [], now := now)
    case List(fails, hidden, order) =>
      if fails then t.(io := t.io.(listFails := true)) else t.(io := t.io.(hidden := hidden), order := order)
    case EvictNext(fails) =>
      if p.Evicting? && p.todo != [] && p.needed > 0 && fails
      then t.(io := t.io.(stuck := t.io.stuck + {p.todo[0].name})) else t
    case WriteTmp(createFails, copyFails, cleanupFails, data, now) =>
      if createFails then t.(io := t.io.(createFails := true), now := now)
      else if copyFails
      then t.(io := t.io.(copyFails := true, partial := data, cleanupFails := cleanupFails), now := now)
      else t.(data := data, now := now)
    case RenameTmp(fails, cleanupFails, now) =>
      if fails then t.(io := t.io.(renameFails := true, cleanupFails := cleanupFails), now := now) else t.(now := now)
    case CountIn(now) => t.(now := now)
    case RemoveBegin(name, statFails) => t.(name := name, rio := RemoveIO(statFails, false))
    case Unlink(fails) => t.(rio := t.rio.(removeFails := fails))
    case TouchBlob(_, now) => t.(now := now)
    case _ => t
  }

  /** The operation that ends with step `a`. */
  function Ended(t: Trail, sys: Steps.Sys, a: Steps.Action): Op {
    match a
    case TouchBlob(id, _) =>
      GetOp(if id in sys.readers then sys.readers[id].name else t.name, NO_GET_FAULTS)
    case RemoveBegin(_, _) => RemoveOp(t.name, t.rio)
    case Unlink(_) => RemoveOp(t.name, t.rio)
    case Forget => RemoveOp(t.name, t.rio)
    case _ => PutOp(t.name, t.data, t.size, t.io)
  }

  /** A step ends an operation when it leaves the lock free, or touches a blob. */
  function Track(max: int, t: Trail, sys: Steps.Sys, a: Steps.Action): Trail {
    var next, n := Steps.Next(max, sys, a), Noted(t, sys.phase, a);
    if a.StatBlob? || a.OpenBlob? || !next.phase.Idle? then n
    else n.(run := n.run + [Event(Ended(n, sys, a), n.now, n.order)], base := next.s)
  }

  function Started(s: State): Trail {
    Trail([], s, [], 0, [], NO_PUT_FAULTS, RemoveIO(false, false), [], 0)
  }

  function TrailOf(max: int, sys: Steps.Sys, acts: seq<Steps.Action>): Trail {
    if acts == [] then Started(sys.s)
    else Track(max, TrailOf(max, sys, Init(acts)), Steps.Run(max, sys, Init(acts)), Last(acts))
  }

  /** The operations of an interleaving, in the order in which they ended. */
  function Sequential(max: int, sys: Steps.Sys, acts: seq<Steps.Action>): seq<Event> {
    TrailOf(max, sys, acts).run
  }

  // ---------- where the operation under way stands ----------

  function Room(max: int, t: Trail): (State, Option<PutError>) {
    MakeRoom(max, t.base, t.size, t.io, t.order)
  }

  /** A `Put` that has not found its blob. */
  ghost predicate Absent(t: Trail, name: Name, size: int) {
    IsBlob(name) && t.name == name && t.size == size && !Finds(t.base, name, t.io)
  }

  /** `Put` has room. */
  ghost predicate Roomy(max: int, t: Trail) {
    && IsBlob(t.name) && !Finds(t.base, t.name, t.io)
    && OrderOk(max, t.base, t.name, t.size, t.io, t.order)
    && Room(max, t).1 == None
    && !t.io.createFails && !t.io.copyFails && !t.io.renameFails
  }

  /** The eviction has visited all but the last `|todo|` victims. */
  ghost predicate Midway(t: Trail, s: State, needed: int, goal: int, todo: seq<Victim>) {
    var k := |t.order| - |todo|;
    && 0 <= k && todo == t.order[k..]
    && s == Without(t.base, Removable(t.order[..k], t.io.stuck), Freed(t.order[..k], t.io.stuck))
    && needed == goal - Freed(t.order[..k], t.io.stuck)
    && (forall j | 0 <= j < k :: Freed(t.order[..j], t.io.stuck) < goal)
    && (forall v | v in todo :: v.name !in t.io.stuck)
  }

  ghost predicate Evicts(max: int, t: Trail, s: State, p: Steps.Phase)
    requires p.Evicting?
  {
    && Absent(t, p.name, p.size)
    && t.base.used + t.size > max && !t.io.listFails && t.order != []
    && ValidOrder(t.base, t.io.hidden, t.order)
    && !t.io.createFails && !t.io.copyFails && !t.io.renameFails
    && Midway(t, s, p.needed, t.base.used + t.size - max, p.todo)
  }

  /** The state once the pending counter updates for the removed file `v` are made. */
  function Settled(s: State, v: Victim, debited: bool): State {
    State(s.dir, if debited then s.used else s.used - v.size, s.count - 1, s.touched - {v.name})
  }

  ghost predicate Resumes(max: int, t: Trail, s: State, v: Victim, next: Steps.Phase) {
    match next
    case Idle => IsBlob(t.name) && v.name == t.name && t.rio == RemoveIO(false, false)
                 && s == Remove(t.base, t.name, t.rio).0
    case Evicting(_, _, _, _) => Evicts(max, t, s, next)
    case _ => false
  }

  /** `s` is what the operation under way has made of `t.base`. */
  ghost predicate Follows(max: int, t: Trail, s: State, p: Steps.Phase) {
    match p
    case Idle => s == t.base
    case Listing(name, size, needed) =>
      && s == t.base && Absent(t, name, size) && needed == s.used + size - max && needed > 0
      && t.io == NO_PUT_FAULTS.(statFails := t.io.statFails)
    case Evicting(_, _, _, _) => Evicts(max, t, s, p)
    case Writing(name, size) => Roomy(max, t) && t.name == name && t.size == size && s == Room(max, t).0
    case Renaming(name, data) =>
      && Roomy(max, t) && t.name == name && t.data == data && TmpName(name) in s.dir
      && s == Room(max, t).0.(dir := Room(max, t).0.dir[TmpName(name) := File(data, s.dir[TmpName(name)].mtime)])
    case Crediting(name, bytes) =>
      && Roomy(max, t) && t.name == name && |t.data| == bytes && name in s.dir
      && s == Room(max, t).0.(dir := s.dir) && Renamed(Room(max, t).0.dir, s.dir, name, t.data)
    case Counting(name) =>
      && Roomy(max, t) && t.name == name && name in s.dir
      && s == Room(max, t).0.(dir := s.dir, used := Room(max, t).0.used + |t.data|)
      && Renamed(Room(max, t).0.dir, s.dir, name, t.data)
    case Removing(name, bytes) =>
      && s == t.base && IsBlob(name) && t.name == name && t.rio == RemoveIO(false, false)
      && name in s.dir && bytes == |s.dir[name].data|
    case Debiting(v, next) => Resumes(max, t, Settled(s, v, false), v, next)
    case Forgetting(v, next) => Resumes(max, t, Settled(s, v, true), v, next)
  }

  ghost predicate Renamed(before: Dir, after: Dir, name: Name, data: Bytes) {
    name in after && after == (before - {TmpName(name)})[name := File(data, after[name].mtime)]
  }

  // ---------- eviction ----------

  lemma ShortestIsUnique(order: seq<Victim>, needed: int, stuck: set<Name>, j: nat, k: nat)
    requires Shortest(order, needed, stuck, j) && Shortest(order, needed, stuck, k)
    ensures j == k
  {
  }

  lemma {:induction false} StuckElsewhere(order: seq<Victim>, stuck: set<Name>, n: Name)
    requires forall v | v in order :: v.name != n
    ensures Removable(order, stuck + {n}) == Removable(order, stuck)
    ensures Freed(order, stuck + {n}) == Freed(order, stuck)
  {
    if order != [] {
      assert order[0] in order;
      StuckElsewhere(order[1..], stuck, n);
    }
  }

  lemma RemovableSnoc(order: seq<Victim>, k: nat, stuck: set<Name>)
    requires k < |order|
    ensures Removable(order[..k + 1], stuck)
            == Removable(order[..k], stuck) + if order[k].name in stuck then {} else {order[k].name}
    ensures Freed(order[..k + 1], stuck) == Freed(order[..k], stuck) + if order[k].name in stuck then 0 else order[k].size
  {
    var longer := order[..k + 1];
    assert longer[..|longer| - 1] == order[..k];
    FreedLast(longer, stuck);
    forall n
      ensures n in Removable(longer, stuck)
              <==> n in Removable(order[..k], stuck) || (n == order[k].name && n !in stuck)
    {
      RemovableNames(longer, stuck, n);
      RemovableNames(order[..k], stuck, n);
      if i :| 0 <= i < k + 1 && longer[i].name == n {
        if i < k { assert order[..k][i].name == n; }
      }
      if i :| 0 <= i < k && order[..k][i].name == n { assert longer[i].name == n; }
      assert longer[k] == order[k];
    }
  }

  lemma WithoutThenDrop(s: State, gone: set<Name>, bytes: int, v: Victim)
    requires v.name !in gone
    ensures Drop(Without(s, gone, bytes), v) == Without(s, gone + {v.name}, bytes + v.size)
  {
    assert s.dir - gone - {v.name} == s.dir - (gone + {v.name});
    assert s.touched - gone - {v.name} == s.touched - (gone + {v.name});
  }

  lemma DistinctVictim(m: Dir, order: seq<Victim>, k: nat, stuck: set<Name>)
    requires Candidates(m, order) && k < |order|
    ensures order[k].name !in Removable(order[..k], stuck)
    ensures forall v | v in order[..k] || v in order[k + 1..] :: v.name != order[k].name
  {
    RemovableNames(order[..k], stuck, order[k].name);
  }

  /** One victim further, removed. */
  lemma MidwayRemoves(t: Trail, s: State, needed: int, goal: int, todo: seq<Victim>)
    requires Candidates(Blobs(t.base.dir), t.order)
    requires Midway(t, s, needed, goal, todo) && todo != [] && needed > 0
    ensures Midway(t, Drop(s, todo[0]), needed - todo[0].size, goal, todo[1..])
  {
    hide Candidates, Removable, Freed, Without, Drop;
    var k := |t.order| - |todo|;
    DistinctVictim(Blobs(t.base.dir), t.order, k, t.io.stuck);
    RemovableSnoc(t.order, k, t.io.stuck);
    WithoutThenDrop(t.base, Removable(t.order[..k], t.io.stuck), Freed(t.order[..k], t.io.stuck), todo[0]);
    assert todo[0] in todo && todo[0] == t.order[k] && todo[1..] == t.order[k + 1..];
  }

  /** One victim further, which cannot be removed. */
  lemma MidwaySkips(t: Trail, t': Trail, s: State, needed: int, goal: int, todo: seq<Victim>)
    requires Candidates(Blobs(t.base.dir), t.order)
    requires Midway(t, s, needed, goal, todo) && todo != [] && needed > 0
    requires t' == t.(io := t.io.(stuck := t.io.stuck + {todo[0].name}))
    ensures Midway(t', s, needed, goal, todo[1..])
  {
    hide Candidates, Removable, Freed, Without;
    var k, n := |t.order| - |todo|, todo[0].name;
    DistinctVictim(Blobs(t.base.dir), t.order, k, t.io.stuck);
    RemovableSnoc(t.order, k, t'.io.stuck);
    forall j | 0 <= j <= k
      ensures Freed(t.order[..j], t'.io.stuck) == Freed(t.order[..j], t.io.stuck)
      ensures Removable(t.order[..j], t'.io.stuck) == Removable(t.order[..j], t.io.stuck)
    {
      assert forall v | v in t.order[..j] :: v in t.order[..k];
      StuckElsewhere(t.order[..j], t.io.stuck, n);
    }
    assert todo[0] == t.order[k] && todo[1..] == t.order[k + 1..];
    assert Removable(t.order[..k + 1], t'.io.stuck) == Removable(t.order[..k], t'.io.stuck);
    assert s == Without(t.base, Removable(t.order[..k + 1], t'.io.stuck), Freed(t.order[..k + 1], t'.io.stuck));
    assert forall j | 0 <= j < k + 1 :: Freed(t.order[..j], t'.io.stuck) < goal;
    assert forall v | v in todo[1..] :: v.name !in t'.io.stuck;
  }

  /** At the end of the loop the state is that of the whole eviction. */
  lemma MidwayEnds(t: Trail, s: State, needed: int, goal: int, todo: seq<Victim>)
    requires Candidates(Blobs(t.base.dir), t.order)
    requires Midway(t, s, needed, goal, todo) && (todo == [] || needed <= 0)
    ensures s == Evict(t.base, t.order, goal, t.io.stuck)
  {
    hide Candidates, Removable, Freed, Without, Evict;
    var k := |t.order| - |todo|;
    VisitsShortestPrefix(t.order, goal, t.io.stuck);
    ShortestIsUnique(t.order, goal, t.io.stuck, k, Visited(t.order, goal, t.io.stuck));
    EvictRemovesPrefix(Blobs(t.base.dir), t.base, t.order, goal, t.io.stuck);
  }

  lemma MidwayStarts(t: Trail, goal: int)
    requires t.io.stuck == {}
    ensures Midway(t, t.base, goal, goal, t.order)
  {
    assert t.order[..0] == [] && t.order[0..] == t.order;
    NothingRemovable({});
    WithoutNothing(t.base);
  }

  // ---------- one step ----------

  /** `s` is what the operation `op` makes of the state before it. */
  ghost predicate Completes(max: int, t: Trail, op: Op, s: State) {
    Allowed(max, t.base, Event(op, t.now, t.order)) && SameView(s, Do(max, t.base, Event(op, t.now, t.order)))
  }

  lemma SameViewRefl(s: State)
    ensures SameView(s, s)
  {
  }

  lemma BeginFollows(max: int, t: Trail, s: State, a: Steps.Action)
    requires Follows(max, t, s, Steps.Idle) && a.PutBegin? && IsBlob(a.name)
    ensures var (s', p) := Steps.BeginStep(max, s, a);
            var n := Noted(t, Steps.Idle, a);
            if p.Idle? then Completes(max, n, PutOp(n.name, n.data, n.size, n.io), s') else Follows(max, n, s', p)
  {
    hide IsBlob, SameView, Evict;
    SameViewRefl(Steps.BeginStep(max, s, a).0);
  }

  lemma ListFollows(max: int, t: Trail, s: State, p: Steps.Phase, a: Steps.Action)
    requires Follows(max, t, s, p) && p.Listing? && a.List? && (a.fails || ValidOrder(s, a.hidden, a.order))
    ensures var (s', q) := Steps.Hold(max, s, p, a);
            var n := Noted(t, p, a);
            if q.Idle? then Completes(max, n, PutOp(n.name, n.data, n.size, n.io), s') else Follows(max, n, s', q)
  {
    hide IsBlob, SameView, ValidOrder, Evict, Midway;
    SameViewRefl(s);
    if !a.fails { MidwayStarts(Noted(t, p, a), p.needed); }
  }

  lemma EvictFollows(max: int, t: Trail, s: State, p: Steps.Phase, fails: bool)
    requires Follows(max, t, s, p) && p.Evicting?
    ensures var (s', q) := Steps.EvictStep(max, s, p, fails);
            var n := Noted(t, p, Steps.EvictNext(fails));
            if q.Idle? then Completes(max, n, PutOp(n.name, n.data, n.size, n.io), s') else Follows(max, n, s', q)
  {
    hide IsBlob, SameView, ValidOrder, Midway, Evict;
    SameViewRefl(s);
    var goal, n := t.base.used + t.size - max, Noted(t, p, Steps.EvictNext(fails));
    AreCandidates(t.base, t.io.hidden, t.order);
    if p.todo == [] || p.needed <= 0 {
      MidwayEnds(t, s, p.needed, goal, p.todo);
    } else if fails {
      MidwaySkips(t, n, s, p.needed, goal, p.todo);
    } else {
      MidwayRemoves(t, s, p.needed, goal, p.todo);
      assert Settled(s.(dir := s.dir - {p.todo[0].name}), p.todo[0], false) == Drop(s, p.todo[0]);
    }
  }

  lemma AreCandidates(s: State, hidden: set<Name>, order: seq<Victim>)
    requires ValidOrder(s, hidden, order)
    ensures Candidates(Blobs(s.dir), order)
  {
  }

  /** What a `Put` that has found room ends with. */
  lemma PutAfterRoom(max: int, t: Trail, n: Trail)
    requires Roomy(max, t)
    requires n.name == t.name && n.size == t.size && n.base == t.base && n.order == t.order
    requires n.io.statFails == t.io.statFails && n.io.listFails == t.io.listFails
    requires n.io.hidden == t.io.hidden && n.io.stuck == t.io.stuck
    ensures Allowed(max, n.base, Event(PutOp(n.name, n.data, n.size, n.io), n.now, n.order))
    ensures Put(max, n.base, n.name, n.data, n.size, n.io, n.order, n.now)
            == Write(Room(max, t).0, n.name, n.data, n.io, n.now)
    ensures Room(max, n) == Room(max, t)
  {
    hide IsBlob, ValidOrder, Evict, Write;
    assert Room(max, n) == Room(max, t);
  }

  lemma ReTmp(dir: Dir, tmp: Name, f: File, g: File)
    ensures dir[tmp := f] - {tmp} == dir - {tmp} && dir[tmp := f][tmp := g] == dir[tmp := g]
  {
  }

  lemma WriteFollows(max: int, t: Trail, s: State, p: Steps.Phase, a: Steps.Action)
    requires Follows(max, t, s, p) && p.Writing? && a.WriteTmp?
    ensures var (s', q) := Steps.WriteStep(s, p, a);
            var n := Noted(t, p, a);
            if q.Idle? then Completes(max, n, PutOp(n.name, n.data, n.size, n.io), s') else Follows(max, n, s', q)
  {
    hide IsBlob, SameView, Put, MakeRoom, OrderOk, TmpName, Allowed;
    var s', n := Steps.WriteStep(s, p, a).0, Noted(t, p, a);
    PutAfterRoom(max, t, n);
    ReTmp(s.dir, TmpName(p.name), File(a.data, a.now), File(a.data, a.now));
    SameViewRefl(s');
  }

  /** Views tell temporary files apart by their contents only. */
  lemma SameButTmp(s: State, t: State, tmp: Name)
    requires !IsBlob(tmp) && tmp in s.dir && tmp in t.dir && s.dir[tmp].data == t.dir[tmp].data
    requires s.(dir := s.dir - {tmp}) == t.(dir := t.dir - {tmp})
    ensures SameView(s, t)
  {
    assert forall n | n in s.dir && n != tmp :: n in s.dir - {tmp} && s.dir[n] == (s.dir - {tmp})[n];
    assert forall n | n in t.dir && n != tmp :: n in t.dir - {tmp} && t.dir[n] == (t.dir - {tmp})[n];
  }

  lemma RenameFollows(max: int, t: Trail, s: State, p: Steps.Phase, a: Steps.Action)
    requires Follows(max, t, s, p) && p.Renaming? && a.RenameTmp?
    ensures var (s', q) := Steps.RenameStep(s, p, a);
            var n := Noted(t, p, a);
            if q.Idle? then Completes(max, n, PutOp(n.name, n.data, n.size, n.io), s') else Follows(max, n, s', q)
  {
    hide IsBlob, SameView, Put, MakeRoom, OrderOk, TmpName, Allowed;
    var s', n := Steps.RenameStep(s, p, a).0, Noted(t, p, a);
    var tmp, room := TmpName(p.name), Room(max, t).0;
    var f, g := File(p.data, s.dir[tmp].mtime), File(p.data, a.now);
    PutAfterRoom(max, t, n);
    ReTmp(room.dir, tmp, f, f);
    ReTmp(room.dir, tmp, g, g);
    NamesKeptApart("", p.name);
    if a.fails && a.cleanupFails {
      SameButTmp(s', room.(dir := room.dir[tmp := g]), tmp);
    } else {
      SameViewRefl(s');
    }
  }

  lemma CreditFollows(max: int, t: Trail, s: State, p: Steps.Phase)
    requires Follows(max, t, s, p) && p.Crediting?
    ensures Follows(max, t, Steps.Hold(max, s, p, Steps.Credit).0, Steps.Counting(p.name))
  {
    hide IsBlob, Roomy, Room, Renamed;
  }

  lemma RenamedView(before: Dir, after: Dir, name: Name, data: Bytes, now: int, used: int, count: int, times: map<Name, int>)
    requires Renamed(before, after, name, data)
    ensures SameView(State(after, used, count, times[name := now]),
                     State((before - {TmpName(name)})[name := File(data, now)], used, count, times[name := now]))
  {
    hide IsBlob, TmpName;
  }

  lemma CountFollows(max: int, t: Trail, s: State, p: Steps.Phase, now: int)
    requires Follows(max, t, s, p) && p.Counting?
    ensures var n := Noted(t, p, Steps.CountIn(now));
            Completes(max, n, PutOp(n.name, n.data, n.size, n.io), Steps.Hold(max, s, p, Steps.CountIn(now)).0)
  {
    hide IsBlob, SameView, Put, MakeRoom, OrderOk, TmpName, Allowed, Renamed;
    var n, room := Noted(t, p, Steps.CountIn(now)), Room(max, t).0;
    PutAfterRoom(max, t, n);
    RenamedView(room.dir, s.dir, p.name, t.data, now, s.used, s.count + 1, room.touched);
  }

  lemma RemoveBeginFollows(max: int, t: Trail, s: State, a: Steps.Action)
    requires Follows(max, t, s, Steps.Idle) && a.RemoveBegin? && IsBlob(a.name)
    ensures var (s', p) := Steps.Hold(max, s, Steps.Idle, a);
            var n := Noted(t, Steps.Idle, a);
            if p.Idle? then Completes(max, n, RemoveOp(n.name, n.rio), s') else Follows(max, n, s', p)
  {
    hide IsBlob, SameView;
    SameViewRefl(s);
  }

  lemma UnlinkFollows(max: int, t: Trail, s: State, p: Steps.Phase, fails: bool)
    requires Follows(max, t, s, p) && p.Removing?
    ensures var (s', q) := Steps.UnlinkStep(s, p, fails);
            var n := Noted(t, p, Steps.Unlink(fails));
            if q.Idle? then Completes(max, n, RemoveOp(n.name, n.rio), s') else Follows(max, n, s', q)
  {
    hide IsBlob, SameView;
    SameViewRefl(s);
  }

  lemma DebitFollows(max: int, t: Trail, s: State, p: Steps.Phase)
    requires Follows(max, t, s, p) && p.Debiting?
    ensures var (s', q) := Steps.Hold(max, s, p, Steps.Debit); Follows(max, t, s', q)
  {
    hide Evicts, IsBlob;
  }

  lemma ForgetFollows(max: int, t: Trail, s: State, p: Steps.Phase)
    requires Follows(max, t, s, p) && p.Forgetting?
    ensures var (s', q) := Steps.Hold(max, s, p, Steps.Forget);
            if q.Idle? then Completes(max, t, RemoveOp(t.name, t.rio), s') else Follows(max, t, s', q)
  {
    hide Evicts, IsBlob, SameView;
    SameViewRefl(Settled(s, p.v, true));
  }

  /** A `Get` that touches late is a miss if its blob has gone. */
  lemma TouchFollows(max: int, t: Trail, name: Name, now: int)
    requires IsBlob(name)
    ensures Completes(max, t.(now := now), GetOp(name, NO_GET_FAULTS), t.base.(touched := t.base.touched[name := now]))
  {
  }

  // ---------- whole interleavings ----------

  ghost predicate Tracks(max: int, start: State, t: Trail, sys: Steps.Sys) {
    && Legal(max, start, t.run)
    && SameView(t.base, After(max, start, t.run))
    && Follows(max, t, sys.s, sys.phase)
    && (forall id | id in sys.readers :: IsBlob(sys.readers[id].name))
  }

  lemma SameViewTrans(s: State, t: State, u: State)
    requires SameView(s, t) && SameView(t, u)
    ensures SameView(s, u)
  {
  }

  /** One more operation at the end of the sequential run. */
  lemma OneMore(max: int, start: State, t: Trail, run: seq<Event>, op: Op, s: State)
    requires Legal(max, start, run) && SameView(t.base, After(max, start, run)) && Completes(max, t, op, s)
    ensures var longer := run + [Event(op, t.now, t.order)];
            Legal(max, start, longer) && SameView(s, After(max, start, longer))
  {
    hide SameView, Do, Allowed;
    var e := Event(op, t.now, t.order);
    assert Init(run + [e]) == run && Last(run + [e]) == e;
    StepIgnoresStale(max, t.base, After(max, start, run), e);
    SameViewTrans(s, Do(max, t.base, e), Do(max, After(max, start, run), e));
  }

  ghost predicate StepFollows(max: int, t: Trail, sys: Steps.Sys, a: Steps.Action) {
    var next, n := Steps.Next(max, sys, a), Noted(t, sys.phase, a);
    if a.StatBlob? || a.OpenBlob? || !next.phase.Idle? then Follows(max, n, next.s, next.phase)
    else Completes(max, n, Ended(n, sys, a), next.s)
  }

  lemma {:induction false} EveryStepFollows(max: int, t: Trail, sys: Steps.Sys, a: Steps.Action)
    requires Follows(max, t, sys.s, sys.phase) && Steps.Enabled(sys, a)
    requires forall id | id in sys.readers :: IsBlob(sys.readers[id].name)
    ensures StepFollows(max, t, sys, a)
  {
    hide Follows, Completes, IsBlob, ValidOrder;
    match a
    case PutBegin(_, _, _, _) => BeginFollows(max, t, sys.s, a);
    case List(_, _, _) => ListFollows(max, t, sys.s, sys.phase, a);
    case EvictNext(fails) => EvictFollows(max, t, sys.s, sys.phase, fails);
    case WriteTmp(_, _, _, _, _) => WriteFollows(max, t, sys.s, sys.phase, a);
    case RenameTmp(_, _, _) => RenameFollows(max, t, sys.s, sys.phase, a);
    case Credit => CreditFollows(max, t, sys.s, sys.phase);
    case CountIn(now) => CountFollows(max, t, sys.s, sys.phase, now);
    case RemoveBegin(_, _) => RemoveBeginFollows(max, t, sys.s, a);
    case Unlink(fails) => UnlinkFollows(max, t, sys.s, sys.phase, fails);
    case Debit => DebitFollows(max, t, sys.s, sys.phase);
    case Forget => ForgetFollows(max, t, sys.s, sys.phase);
    case StatBlob(_, _, _) =>
    case OpenBlob(_, _) =>
    case TouchBlob(id, now) =>
      IdleIsBase(max, t, sys.s);
      TouchFollows(max, t, sys.readers[id].name, now);
  }

  lemma IdleIsBase(max: int, t: Trail, s: State)
    ensures Follows(max, t, s, Steps.Idle) <==> s == t.base
  {
  }

  lemma ReadersStayNamed(max: int, sys: Steps.Sys, a: Steps.Action)
    requires Steps.Enabled(sys, a) && forall id | id in sys.readers :: IsBlob(sys.readers[id].name)
    ensures forall id | id in Steps.Next(max, sys, a).readers :: IsBlob(Steps.Next(max, sys, a).readers[id].name)
  {
    hide IsBlob, Steps.Hold;
  }

  lemma StepTracks(max: int, start: State, t: Trail, sys: Steps.Sys, a: Steps.Action)
    requires Tracks(max, start, t, sys) && Steps.Enabled(sys, a)
    ensures Tracks(max, start, Track(max, t, sys, a), Steps.Next(max, sys, a))
  {
    hide SameView, Follows, Completes, IsBlob, Steps.Next, Steps.Enabled, Ended, Legal;
    var next, n := Steps.Next(max, sys, a), Noted(t, sys.phase, a);
    EveryStepFollows(max, t, sys, a);
    ReadersStayNamed(max, sys, a);
    if !(a.StatBlob? || a.OpenBlob? || !next.phase.Idle?) {
      OneMore(max, start, n, n.run, Ended(n, sys, a), next.s);
      IdleIsBase(max, Track(max, t, sys, a), next.s);
    }
  }

  lemma {:induction false} RunTracks(max: int, sys: Steps.Sys, acts: seq<Steps.Action>)
    requires sys.phase.Idle? && Steps.Runs(max, sys, acts, Steps.AnyStep)
    requires forall id | id in sys.readers :: IsBlob(sys.readers[id].name)
    ensures Tracks(max, sys.s, TrailOf(max, sys, acts), Steps.Run(max, sys, acts))
  {
    hide Track, Steps.Next, Steps.Enabled, IsBlob;
    if acts == [] {
      IdleIsBase(max, Started(sys.s), sys.s);
      SameViewRefl(sys.s);
    } else {
      RunTracks(max, sys, Init(acts));
      StepTracks(max, sys.s, TrailOf(max, sys, Init(acts)), Steps.Run(max, sys, Init(acts)), Last(acts));
    }
  }

  /**
   Whatever is interleaved and whatever fails, whenever nobody holds the lock the cache shows what
   the operations that have ended leave when they are run one after the other.
   */
  lemma {:induction false} InterleavingsAreSequential(max: int, sys: Steps.Sys, acts: seq<Steps.Action>)
    requires sys.phase.Idle? && Steps.Runs(max, sys, acts, Steps.AnyStep)
    requires forall id | id in sys.readers :: IsBlob(sys.readers[id].name)
    ensures var end, run := Steps.Run(max, sys, acts), Sequential(max, sys, acts);
            Legal(max, sys.s, run) && (end.phase.Idle? ==> SameView(end.s, After(max, sys.s, run)))
  {
    hide SameView, Legal;
    RunTracks(max, sys, acts);
    IdleIsBase(max, TrailOf(max, sys, acts), Steps.Run(max, sys, acts).s);
  }

  // ---------- the sequential run is what was called ----------

  datatype Call = PutCall(name: Name, size: int) | GetCall(name: Name) | RemoveCall(name: Name)

  function CallOf(op: Op): Call {
    match op
    case PutOp(name, _, size, _) => PutCall(name, size)
    case GetOp(name, _) => GetCall(name)
    case RemoveOp(name, _) => RemoveCall(name)
  }

  function CallsOf(run: seq<Event>): seq<Call> {
    seq(|run|, i requires 0 <= i < |run| => CallOf(run[i].op))
  }

  /** The calls that take the lock, in the order in which they get it. */
  function Called(max: int, sys: Steps.Sys, acts: seq<Steps.Action>): seq<Call> {
    if acts == [] then [] else Called(max, sys, Init(acts)) + CalledBy(Steps.Run(max, sys, Init(acts)), Last(acts))
  }

  function CalledBy(sys: Steps.Sys, a: Steps.Action): seq<Call> {
    match a
    case PutBegin(name, size, _, _) => [PutCall(name, size)]
    case RemoveBegin(name, _) => [RemoveCall(name)]
    case TouchBlob(id, _) => if id in sys.readers then [GetCall(sys.readers[id].name)] else []
    case _ => []
  }

  predicate IsRemoval(p: Steps.Phase) {
    p.Removing? || ((p.Debiting? || p.Forgetting?) && p.next.Idle?)
  }

  /** The call under way. */
  function Current(t: Trail, p: Steps.Phase): seq<Call> {
    if p.Idle? then [] else if IsRemoval(p) then [RemoveCall(t.name)] else [PutCall(t.name, t.size)]
  }

  lemma CallsSnoc(run: seq<Event>, e: Event)
    ensures CallsOf(run + [e]) == CallsOf(run) + [CallOf(e.op)]
  {
  }

  lemma {:induction false} StepInOrder(max: int, t: Trail, sys: Steps.Sys, a: Steps.Action)
    requires Steps.Enabled(sys, a) && Follows(max, t, sys.s, sys.phase)
    ensures var n, next := Track(max, t, sys, a), Steps.Next(max, sys, a);
            CallsOf(n.run) + Current(n, next.phase) == CallsOf(t.run) + Current(t, sys.phase) + CalledBy(sys, a)
  {
    hide IsBlob, ValidOrder, Evicts, Roomy, Renamed, Absent, Remove, Room, Settled, TmpName, Finds, CallsOf;
    var n := Noted(t, sys.phase, a);
    assert n.run == t.run;
    CallsSnoc(n.run, Event(Ended(n, sys, a), n.now, n.order));
  }

  /** Every call takes place exactly once, in the order in which the calls got the lock. */
  lemma {:induction false} SequentialIsCalled(max: int, sys: Steps.Sys, acts: seq<Steps.Action>)
    requires sys.phase.Idle? && Steps.Runs(max, sys, acts, Steps.AnyStep)
    requires forall id | id in sys.readers :: IsBlob(sys.readers[id].name)
    ensures CallsOf(Sequential(max, sys, acts))
            + Current(TrailOf(max, sys, acts), Steps.Run(max, sys, acts).phase) == Called(max, sys, acts)
  {
    hide Track, Steps.Next, Steps.Enabled, IsBlob, Follows, CallsOf, Current, CalledBy, Legal, SameView;
    if acts == [] {
      NothingCalled(sys.s);
    } else {
      SequentialIsCalled(max, sys, Init(acts));
      RunTracks(max, sys, Init(acts));
      StepInOrder(max, TrailOf(max, sys, Init(acts)), Steps.Run(max, sys, Init(acts)), Last(acts));
    }
  }

  lemma NothingCalled(s: State)
    ensures CallsOf(Started(s).run) == [] && Current(Started(s), Steps.Idle) == []
  {
  }

  // ---------- what concurrent callers inherit ----------

  /** The cache holds a part of what completed `Put`s stored, unaltered, however callers interleave. */
  lemma ContentsUnderInterleaving(max: int, sys: Steps.Sys, acts: seq<Steps.Action>)
    requires sys.phase.Idle? && Steps.Runs(max, sys, acts, Steps.AnyStep)
    requires forall id | id in sys.readers :: IsBlob(sys.readers[id].name)
    ensures var end := Steps.Run(max, sys, acts);
            end.phase.Idle? ==> Keeps(Stored(max, sys.s, Sequential(max, sys, acts)), Contents(end.s.dir))
  {
    hide Stored, Steps.Run, Steps.Runs, After, Legal, IsBlob;
    InterleavingsAreSequential(max, sys, acts);
    ContentsWereStored(max, sys.s, Sequential(max, sys, acts));
  }

  /** Whatever is cached was touched later than whatever is not, however callers interleave. */
  lemma RecencyUnderInterleaving(max: int, readers: map<nat, Steps.Reader>, acts: seq<Steps.Action>)
    requires Steps.Runs(max, Steps.Sys(EMPTY, Steps.Idle, readers), acts, Steps.AnyStep)
    requires forall id | id in readers :: IsBlob(readers[id].name)
    requires var run := Sequential(max, Steps.Sys(EMPTY, Steps.Idle, readers), acts);
             Ticking(run) && forall e | e in run :: Clean(e)
    ensures var sys := Steps.Sys(EMPTY, Steps.Idle, readers);
            var end := Steps.Run(max, sys, acts);
            end.phase.Idle? ==> AllNewer(Live(end.s), LastTouch(max, EMPTY, Sequential(max, sys, acts)))
  {
    hide Steps.Run, Steps.Runs, After, Legal, IsBlob, AllNewer, LastTouch, Ticking, Clean, Sequential;
    var sys := Steps.Sys(EMPTY, Steps.Idle, readers);
    InterleavingsAreSequential(max, sys, acts);
    RecencyOverRuns(max, Sequential(max, sys, acts));
    SameLive(Steps.Run(max, sys, acts).s, After(max, EMPTY, Sequential(max, sys, acts)));
  }

  lemma SameLive(s: State, t: State)
    ensures SameView(s, t) ==> Live(s) == Live(t)
  {
  }
}
