/** LRU inclusion: when a larger cache holds whatever a smaller one holds after the same requests. */
module CacheInclusion {
  import opened BlobDir
  import opened Common
  import opened CacheSpec
  import opened CacheOps
  import opened CacheRuns

  /** The blobs of the smaller cache are the most recently touched blobs of the larger one. */
  ghost predicate Suffix(small: set<Name>, large: set<Name>, times: map<Name, int>) {
    && small <= large <= times.Keys
    && (forall y, z | y in small && z in large && times[y] < times[z] :: z in small)
  }

  /** No two blobs were touched at the same time, and none after `clock`. */
  ghost predicate Spread(live: set<Name>, times: map<Name, int>, clock: int) {
    && live <= times.Keys
    && (forall n | n in live :: times[n] <= clock)
    && (forall m, n | m in live && n in live && m != n :: times[m] != times[n])
  }

  ghost predicate Timed(s: State, clock: int) {
    Accounts(s) && Spread(Live(s), s.touched, clock)
  }

  ghost predicate SameTimes(s: State, t: State) {
    forall n | n in Live(s) :: n in s.touched && n in t.touched && s.touched[n] == t.touched[n]
  }

  ghost predicate Holds(s: State, content: Name -> Bytes) {
    forall n | n in Live(s) :: s.dir[n].data == content(n)
  }

  ghost predicate Nested(s: State, t: State, clock: int, content: Name -> Bytes) {
    && Timed(s, clock) && Timed(t, clock)
    && Suffix(Live(s), Live(t), t.touched)
    && SameTimes(s, t)
    && Holds(s, content) && Holds(t, content)
  }

  // ---------- making room ----------

  lemma TrimmedSuffix(s: State, room: State, goal: int, clock: int)
    requires Timed(s, clock) && Trimmed(s, room, goal)
    ensures Suffix(Live(room), Live(s), s.touched) && Timed(room, clock) && SameTimes(room, s)
  {
    if room != s {
      var last :| OldestGo(Live(s), Live(room), s.touched, last);
      forall y, z | y in Live(room) && z in Live(s) && s.touched[y] < s.touched[z]
        ensures z in Live(room)
      {
        assert s.touched[last] <= s.touched[y];
      }
    }
  }

  lemma SuffixTransitive(a: set<Name>, b: set<Name>, c: set<Name>, bTimes: map<Name, int>, cTimes: map<Name, int>)
    requires Suffix(a, b, bTimes) && Suffix(b, c, cTimes)
    requires forall n | n in b :: bTimes[n] == cTimes[n]
    ensures Suffix(a, c, cTimes)
  {
  }

  /** Two recency suffixes of the same blobs are comparable. */
  lemma SuffixesCompare(a: set<Name>, b: set<Name>, all: set<Name>, times: map<Name, int>, last: Name)
    requires Suffix(a, all, times) && Suffix(b, all, times)
    requires forall m, n | m in all && n in all && m != n :: times[m] != times[n]
    requires OldestGo(all, b, times, last) && !(a <= b)
    ensures b + {last} <= a
  {
    var y :| y in a && y !in b;
    assert times[y] <= times[last];
    forall z | z in b + {last}
      ensures z in a
    {
      assert times[last] <= times[z];
      if z != y { assert times[y] != times[z]; }
    }
  }

  lemma {:induction false} SizesBound(s: State, t: State, last: Name, content: Name -> Bytes)
    requires Accounts(s) && Accounts(t) && Holds(s, content) && Holds(t, content)
    requires last !in Live(s) && Live(s) + {last} <= Live(t)
    ensures s.used + |content(last)| <= t.used
  {
    var m := Blobs(s.dir)[last := File(content(last), 0)];
    TotalPlus(Blobs(s.dir), last, File(content(last), 0));
    TotalMonotone(m, Blobs(t.dir));
  }

  lemma TrimmedHolds(s: State, room: State, goal: int, content: Name -> Bytes)
    requires Accounts(s) && Trimmed(s, room, goal) && Holds(s, content)
    ensures Holds(room, content)
  {
  }

  /** Making room for the same blob in both caches keeps them nested. */
  lemma RoomKeepsNested(s: State, t: State, sRoom: State, tRoom: State, sGoal: int, tGoal: int,
                        clock: int, content: Name -> Bytes)
    requires Nested(s, t, clock, content) && sGoal <= tGoal
    requires Trimmed(s, sRoom, sGoal) && Trimmed(t, tRoom, tGoal) && sRoom.used <= sGoal
    ensures Nested(sRoom, tRoom, clock, content)
  {
    TrimmedSuffix(s, sRoom, sGoal, clock);
    TrimmedSuffix(t, tRoom, tGoal, clock);
    TrimmedHolds(s, sRoom, sGoal, content);
    TrimmedHolds(t, tRoom, tGoal, content);
    SuffixTransitive(Live(sRoom), Live(s), Live(t), s.touched, t.touched);
    if !(Live(sRoom) <= Live(tRoom)) {
      var last :| OldestGo(Live(t), Live(tRoom), t.touched, last) && tGoal < tRoom.used + |t.dir[last].data|;
      SuffixesCompare(Live(sRoom), Live(tRoom), Live(t), t.touched, last);
      SizesBound(tRoom, sRoom, last, content);
      assert false;
    }
  }

  // ---------- one request ----------

  lemma TouchNested(small: set<Name>, large: set<Name>, times: map<Name, int>, name: Name, now: int)
    requires Suffix(small, large, times) && forall n | n in large :: times[n] < now
    ensures Suffix(small + {name}, large + {name}, times[name := now])
  {
  }

  /** Both caches end with `name` as their newest blob. */
  lemma {:induction false} BothTouched(s: State, t: State, s': State, t': State, clock: int, content: Name -> Bytes,
                    name: Name, now: int)
    requires Nested(s, t, clock, content) && clock < now
    requires Timed(s', now) && Live(s') == Live(s) + {name} && s'.touched == s.touched[name := now]
    requires Timed(t', now) && Live(t') == Live(t) + {name} && t'.touched == t.touched[name := now]
    requires Holds(s', content) && Holds(t', content)
    ensures Nested(s', t', now, content)
  {
    hide IsBlob, Accounts;
    TouchNested(Live(s), Live(t), t.touched, name, now);
  }

  lemma EmptyNested(s: State, t: State, clock: int, content: Name -> Bytes)
    requires Accounts(s) && Live(s) == {} && Timed(t, clock) && Holds(t, content)
    ensures Nested(s, t, clock, content)
  {
  }

  lemma SpreadPlus(live: set<Name>, times: map<Name, int>, clock: int, name: Name, now: int)
    requires Spread(live, times, clock) && clock < now
    ensures Spread(live + {name}, times[name := now], now)
  {
  }

  lemma StoredHolds(room: State, t: State, name: Name, data: Bytes, now: int, content: Name -> Bytes)
    requires Holds(room, content) && Wrote(room, t, name, data, now) && data == content(name)
    ensures Holds(t, content)
  {
    hide IsBlob, Blobs;
  }

  lemma StoredTimed(room: State, t: State, name: Name, data: Bytes, clock: int, now: int, content: Name -> Bytes)
    requires Timed(room, clock) && clock < now && Holds(room, content) && Accounts(t)
    requires Wrote(room, t, name, data, now) && data == content(name)
    ensures Timed(t, now) && Holds(t, content)
  {
    hide IsBlob, Blobs, Holds, Spread;
    StoredHolds(room, t, name, data, now, content);
    SpreadPlus(Live(room), room.touched, clock, name, now);
  }

  lemma TouchedTimed(s: State, t: State, name: Name, clock: int, now: int, content: Name -> Bytes)
    requires Timed(s, clock) && clock < now && Holds(s, content) && name in Live(s)
    requires t == s.(touched := s.touched[name := now])
    ensures Timed(t, now) && Holds(t, content) && Accounts(t) && Live(t) == Live(s) + {name}
  {
    hide IsBlob;
  }

  lemma LateTimed(s: State, clock: int, now: int)
    requires Timed(s, clock) && clock <= now
    ensures Timed(s, now)
  {
  }

  /** The same request, with the true size declared, keeps the caches nested. */
  lemma PutKeepsNested(sMax: int, tMax: int, s: State, t: State, clock: int, content: Name -> Bytes,
                       name: Name, sOrder: seq<Victim>, tOrder: seq<Victim>, now: int)
    requires Nested(s, t, clock, content) && sMax <= tMax && clock < now && IsBlob(name)
    requires OrderOk(sMax, s, name, |content(name)|, NO_PUT_FAULTS, sOrder)
    requires OrderOk(tMax, t, name, |content(name)|, NO_PUT_FAULTS, tOrder)
    ensures var data := content(name);
            Nested(Put(sMax, s, name, data, |data|, NO_PUT_FAULTS, sOrder, now).0,
                   Put(tMax, t, name, data, |data|, NO_PUT_FAULTS, tOrder, now).0, now, content)
  {
    var data, size := content(name), |content(name)|;
    CleanPut(sMax, s, name, data, size, sOrder, now);
    CleanPut(tMax, t, name, data, size, tOrder, now);
    var s', t' := Put(sMax, s, name, data, size, NO_PUT_FAULTS, sOrder, now).0,
                  Put(tMax, t, name, data, size, NO_PUT_FAULTS, tOrder, now).0;
    var sRoom, tRoom := MakeRoom(sMax, s, size, NO_PUT_FAULTS, sOrder).0,
                        MakeRoom(tMax, t, size, NO_PUT_FAULTS, tOrder).0;
    if name in t.dir {
      TouchedTimed(t, t', name, clock, now, content);
      if name in s.dir {
        TouchedTimed(s, s', name, clock, now, content);
        BothTouched(s, t, s', t', clock, content, name, now);
      } else if size <= sMax {
        TrimmedSuffix(s, sRoom, sMax - size, clock);
        TrimmedHolds(s, sRoom, sMax - size, content);
        SuffixTransitive(Live(sRoom), Live(s), Live(t), s.touched, t.touched);
        StoredTimed(sRoom, s', name, data, clock, now, content);
        BothTouched(sRoom, t, s', t', clock, content, name, now);
      } else {
        EmptyNested(s', t', now, content);
      }
    } else if size <= sMax {
      RoomKeepsNested(s, t, sRoom, tRoom, sMax - size, tMax - size, clock, content);
      StoredTimed(sRoom, s', name, data, clock, now, content);
      StoredTimed(tRoom, t', name, data, clock, now, content);
      BothTouched(sRoom, tRoom, s', t', clock, content, name, now);
    } else {
      TrimmedSuffix(t, tRoom, tMax - size, clock);
      TrimmedHolds(t, tRoom, tMax - size, content);
      if size <= tMax {
        StoredTimed(tRoom, t', name, data, clock, now, content);
      } else {
        LateTimed(tRoom, clock, now);
      }
      EmptyNested(s', t', now, content);
    }
  }

  /**
   A hit or miss in both caches keeps them nested, and so does anything while the smaller cache is
   empty. A blob that only the larger cache holds becomes newer there than all that both hold.
   */
  lemma GetKeepsNestedIff(s: State, t: State, clock: int, content: Name -> Bytes, name: Name, now: int)
    requires Nested(s, t, clock, content) && clock < now && IsBlob(name)
    ensures Nested(Get(s, name, NO_GET_FAULTS, now).0, Get(t, name, NO_GET_FAULTS, now).0, now, content)
            <==> AgreeOn(s, t, name)
  {
    hide IsBlob, Accounts;
    var s', t' := Get(s, name, NO_GET_FAULTS, now).0, Get(t, name, NO_GET_FAULTS, now).0;
    LateTimed(s, clock, now);
    LateTimed(t, clock, now);
    LiveNames(s, name);
    LiveNames(t, name);
    if name in t.dir {
      TouchedTimed(t, t', name, clock, now, content);
      if name in s.dir {
        TouchedTimed(s, s', name, clock, now, content);
        BothTouched(s, t, s', t', clock, content, name, now);
      } else if y :| y in Live(s) {
        assert t'.touched[y] < t'.touched[name];
      } else {
        EmptyNested(s', t', now, content);
      }
    }
  }

  lemma LiveNames(s: State, name: Name)
    requires IsBlob(name)
    ensures name in Live(s) <==> name in s.dir
  {
  }

  /** Both caches hold the blob, or neither does, or the smaller one holds nothing at all. */
  ghost predicate AgreeOn(s: State, t: State, name: Name) {
    (name in s.dir <==> name in t.dir) || Live(s) == {}
  }

  // ---------- whole runs ----------

  datatype Request = PutRequest(name: Name, now: int) | GetRequest(name: Name, now: int)

  function Call(q: Request, order: seq<Victim>, content: Name -> Bytes): Event {
    match q
    case PutRequest(name, now) => Event(PutOp(name, content(name), |content(name)|, NO_PUT_FAULTS), now, order)
    case GetRequest(name, now) => Event(GetOp(name, NO_GET_FAULTS), now, order)
  }

  /** The fault-free calls for `requests`, each blob having its fixed content. */
  function Calls(requests: seq<Request>, orders: seq<seq<Victim>>, content: Name -> Bytes): seq<Event>
    requires |requests| <= |orders|
  {
    seq(|requests|, i requires 0 <= i < |requests| => Call(requests[i], orders[i], content))
  }

  lemma CallsInit(requests: seq<Request>, orders: seq<seq<Victim>>, content: Name -> Bytes)
    requires requests != [] && |requests| <= |orders|
    ensures Calls(requests, orders, content) != []
    ensures Init(Calls(requests, orders, content)) == Calls(Init(requests), orders, content)
    ensures Last(Calls(requests, orders, content)) == Call(Last(requests), orders[|requests| - 1], content)
  {
  }

  predicate Advancing(requests: seq<Request>) {
    forall i, j | 0 <= i < j < |requests| :: requests[i].now < requests[j].now
  }

  /** The time of the last request. */
  function Clock(requests: seq<Request>, start: int): int {
    if requests == [] then start else Last(requests).now
  }

  /** Two caches of size limits `sMax` and `tMax` that break ties in their own way. */
  datatype Pair = Pair(sMax: int, tMax: int, sOrders: seq<seq<Victim>>, tOrders: seq<seq<Victim>>, content: Name -> Bytes)
  {
    function Small(requests: seq<Request>): State
      requires |requests| <= |sOrders|
    {
      After(sMax, EMPTY, Calls(requests, sOrders, content))
    }

    function Large(requests: seq<Request>): State
      requires |requests| <= |tOrders|
    {
      After(tMax, EMPTY, Calls(requests, tOrders, content))
    }

    ghost predicate Serves(requests: seq<Request>) {
      && sMax <= tMax && |requests| <= |sOrders| && |requests| <= |tOrders|
      && Legal(sMax, EMPTY, Calls(requests, sOrders, content))
      && Legal(tMax, EMPTY, Calls(requests, tOrders, content))
    }

    /** The caches agree on the blob of every `Get` when it is made. */
    ghost predicate Agree(requests: seq<Request>)
      requires |requests| <= |sOrders| && |requests| <= |tOrders|
    {
      requests == [] ||
      (Agree(Init(requests)) &&
       (Last(requests).GetRequest? ==> AgreeOn(Small(Init(requests)), Large(Init(requests)), Last(requests).name)))
    }

    /** The smaller cache is the newest part of the larger one at the end and at every moment before. */
    ghost predicate AlwaysNested(requests: seq<Request>, start: int)
      requires |requests| <= |sOrders| && |requests| <= |tOrders|
    {
      && Nested(Small(requests), Large(requests), Clock(requests, start), content)
      && (requests == [] || AlwaysNested(Init(requests), start))
    }
  }

  lemma ServesInit(p: Pair, requests: seq<Request>)
    requires p.Serves(requests) && requests != []
    ensures p.Serves(Init(requests))
    ensures var q, n := Last(requests), |requests| - 1;
            var sCall, tCall := Call(q, p.sOrders[n], p.content), Call(q, p.tOrders[n], p.content);
            && IsBlob(q.name)
            && p.Small(requests) == Do(p.sMax, p.Small(Init(requests)), sCall)
            && p.Large(requests) == Do(p.tMax, p.Large(Init(requests)), tCall)
            && Allowed(p.sMax, p.Small(Init(requests)), sCall)
            && Allowed(p.tMax, p.Large(Init(requests)), tCall)
  {
    hide Do, IsBlob;
    CallsInit(requests, p.sOrders, p.content);
    CallsInit(requests, p.tOrders, p.content);
  }

  lemma RequestKeepsNestedIff(p: Pair, s: State, t: State, clock: int, q: Request, sOrder: seq<Victim>, tOrder: seq<Victim>)
    requires Nested(s, t, clock, p.content) && p.sMax <= p.tMax && clock < q.now
    requires Allowed(p.sMax, s, Call(q, sOrder, p.content)) && Allowed(p.tMax, t, Call(q, tOrder, p.content))
    ensures Nested(Do(p.sMax, s, Call(q, sOrder, p.content)), Do(p.tMax, t, Call(q, tOrder, p.content)), q.now, p.content)
            <==> (q.GetRequest? ==> AgreeOn(s, t, q.name))
  {
    hide IsBlob, OrderOk, Put, Get, Nested, AgreeOn;
    match q
    case PutRequest(name, now) => PutKeepsNested(p.sMax, p.tMax, s, t, clock, p.content, name, sOrder, tOrder, now);
    case GetRequest(name, now) => GetKeepsNestedIff(s, t, clock, p.content, name, now);
  }

  lemma StartNested(p: Pair, clock: int)
    requires p.Serves([])
    ensures Nested(p.Small([]), p.Large([]), clock, p.content)
  {
    assert Blobs(map[]) == map[];
  }

  /**
   Over any requests the smaller cache stays the newest part of the larger one throughout exactly
   when the two agree at every `Get`.
   */
  lemma {:induction false} NestedIffGetsAgree(p: Pair, requests: seq<Request>, start: int)
    requires p.Serves(requests) && Advancing(requests) && forall q | q in requests :: start < q.now
    ensures p.AlwaysNested(requests, start) <==> p.Agree(requests)
  {
    hide Nested, AgreeOn, Do, Allowed;
    if requests == [] {
      StartNested(p, start);
    } else {
      var before, q, n := Init(requests), Last(requests), |requests| - 1;
      ServesInit(p, requests);
      NestedIffGetsAgree(p, before, start);
      assert q in requests;
      if p.AlwaysNested(before, start) {
        RequestKeepsNestedIff(p, p.Small(before), p.Large(before), Clock(before, start), q, p.sOrders[n], p.tOrders[n]);
      }
    }
  }

  /** How many requests found their blob cached. */
  function Hits(max: int, run: seq<Event>): nat {
    if run == [] then 0
    else Hits(max, Init(run)) + if Last(run).op.name in After(max, EMPTY, Init(run)).dir then 1 else 0
  }

  lemma AgreeingIncludes(p: Pair, requests: seq<Request>)
    requires p.Serves(requests) && Advancing(requests) && p.Agree(requests)
    ensures Live(p.Small(requests)) <= Live(p.Large(requests))
  {
    NestedIffGetsAgree(p, requests, if requests == [] then 0 else requests[0].now - 1);
  }

  /**
   The same requests served by two caches that agree at every `Get`: the larger cache holds every
   blob the smaller one holds, and has at least as many hits.
   */
  lemma {:induction false} InclusionIfGetsAgree(p: Pair, requests: seq<Request>)
    requires p.Serves(requests) && Advancing(requests) && p.Agree(requests)
    ensures Live(p.Small(requests)) <= Live(p.Large(requests))
    ensures Hits(p.sMax, Calls(requests, p.sOrders, p.content)) <= Hits(p.tMax, Calls(requests, p.tOrders, p.content))
  {
    hide Do, Allowed, Legal, AgreeOn, Blobs, After, IsBlob;
    AgreeingIncludes(p, requests);
    if requests != [] {
      var before, q := Init(requests), Last(requests);
      ServesInit(p, requests);
      CallsInit(requests, p.sOrders, p.content);
      CallsInit(requests, p.tOrders, p.content);
      InclusionIfGetsAgree(p, before);
      LiveNames(p.Small(before), q.name);
      LiveNames(p.Large(before), q.name);
    }
  }

  /** In particular inclusion holds over every trace of `Put`s. */
  lemma {:induction false} LruInclusion(p: Pair, requests: seq<Request>)
    requires p.Serves(requests) && Advancing(requests) && forall q | q in requests :: q.PutRequest?
    ensures Live(p.Small(requests)) <= Live(p.Large(requests))
    ensures Hits(p.sMax, Calls(requests, p.sOrders, p.content)) <= Hits(p.tMax, Calls(requests, p.tOrders, p.content))
  {
    PutsAgree(p, requests);
    InclusionIfGetsAgree(p, requests);
  }

  lemma {:induction false} PutsAgree(p: Pair, requests: seq<Request>)
    requires |requests| <= |p.sOrders| && |requests| <= |p.tOrders| && forall q | q in requests :: q.PutRequest?
    ensures p.Agree(requests)
  {
    if requests != [] {
      assert Last(requests) in requests;
      PutsAgree(p, Init(requests));
    }
  }

  // ---------- what a Get that finds them different can do ----------

  function PutOf(name: Name, data: Bytes, now: int, order: seq<Victim>): Event {
    Event(PutOp(name, data, |data|, NO_PUT_FAULTS), now, order)
  }

  /** Storing a blob that fits without eviction. */
  lemma StoreFits(max: int, s: State, name: Name, data: Bytes, now: int)
    requires IsBlob(name) && name !in s.dir && s.used + |data| <= max
    requires forall n | n in s.dir :: IsBlob(n)
    ensures var e := PutOf(name, data, now, []);
            && Allowed(max, s, e)
            && Do(max, s, e) == State(s.dir[name := File(data, now)], s.used + |data|, s.count + 1, s.touched[name := now])
  {
    NamesKeptApart("", name);
    assert s.dir - {TmpName(name)} == s.dir;
  }

  lemma LegalSnoc(max: int, run: seq<Event>, e: Event)
    requires Legal(max, EMPTY, run) && Allowed(max, After(max, EMPTY, run), e)
    ensures Legal(max, EMPTY, run + [e])
    ensures After(max, EMPTY, run + [e]) == Do(max, After(max, EMPTY, run), e)
  {
    assert Init(run + [e]) == run;
  }

  function TwoBlobs(x: Name, y: Name, big: Bytes, one: Bytes): State {
    State(map[x := File(big, 1), y := File(one, 2)], 5, 2, map[x := 3, y := 2])
  }

  lemma TwoVictims(x: Name, y: Name, big: Bytes, one: Bytes)
    requires IsBlob(x) && IsBlob(y) && x != y && |big| == 4 && |one| == 1
    ensures ValidOrder(TwoBlobs(x, y, big, one), {}, [Victim(y, 1, 2), Victim(x, 4, 3)])
  {
    var order := [Victim(y, 1, 2), Victim(x, 4, 3)];
    assert order[1..] == [Victim(x, 4, 3)] && order[1..][1..] == [];
    assert Removable(order[1..], {}) == {x} + {} == {x};
    assert Removable(order, {}) == {y} + {x};
    assert Blobs(TwoBlobs(x, y, big, one).dir).Keys - {} == {x, y};
  }

  /** Evicting the older of two blobs, `y` of one byte, to store `z` of one byte. */
  lemma EvictOlder(x: Name, y: Name, z: Name, big: Bytes, one: Bytes)
    requires IsBlob(x) && IsBlob(y) && IsBlob(z) && x != y && y != z && z != x && |big| == 4 && |one| == 1
    ensures var e := PutOf(z, one, 4, [Victim(y, 1, 2), Victim(x, 4, 3)]);
            var s := TwoBlobs(x, y, big, one);
            Allowed(5, s, e) && y !in Live(Do(5, s, e))
  {
    var s, order := TwoBlobs(x, y, big, one), [Victim(y, 1, 2), Victim(x, 4, 3)];
    TwoVictims(x, y, big, one);
    assert Evict(s, order, 1, {}) == Evict(Drop(s, order[0]), order[1..], 0, {}) == Drop(s, order[0]);
    assert MakeRoom(5, s, 1, NO_PUT_FAULTS, order) == (Drop(s, order[0]), None);
    assert Put(5, s, z, one, 1, NO_PUT_FAULTS, order, 4) == Write(Drop(s, order[0]), z, one, NO_PUT_FAULTS, 4);
  }

  /**
   With `Get`s in the trace inclusion fails: `x` fits only into the larger cache, reading it there
   makes `y` the oldest blob, and storing `z` then evicts `y` from the larger cache alone.
   */
  lemma {:induction false} InclusionFailsWithGets(x: Name, y: Name, z: Name) returns (sRun: seq<Event>, tRun: seq<Event>)
    requires IsBlob(x) && IsBlob(y) && IsBlob(z) && x != y && y != z && z != x
    ensures Legal(2, EMPTY, sRun) && Legal(5, EMPTY, tRun)
    ensures Ticking(sRun) && Ticking(tRun) && |sRun| == |tRun|
    ensures forall i | 0 <= i < |sRun| :: Clean(sRun[i]) && sRun[i].op == tRun[i].op && sRun[i].now == tRun[i].now
    ensures y in Live(After(2, EMPTY, sRun)) && y !in Live(After(5, EMPTY, tRun))
  {
    hide IsBlob, Legal, OrderOk, Do;
    var big, one: Bytes := [0, 0, 0, 0], [0];
    var get := Event(GetOp(x, NO_GET_FAULTS), 3, []);
    var order := [Victim(y, 1, 2), Victim(x, 4, 3)];
    InSmallCache(x, y, z, big, one);
    InLargeCache(x, y, big, one);
    EvictOlder(x, y, z, big, one);
    var s3, t3 := [] + [PutOf(x, big, 1, [])] + [PutOf(y, one, 2, [])] + [get],
                  [] + [PutOf(x, big, 1, [])] + [PutOf(y, one, 2, [])] + [get];
    sRun, tRun := s3 + [PutOf(z, one, 4, [])], t3 + [PutOf(z, one, 4, order)];
    LegalSnoc(5, t3, PutOf(z, one, 4, order));
  }

  lemma InSmallCache(x: Name, y: Name, z: Name, big: Bytes, one: Bytes)
    requires IsBlob(x) && IsBlob(y) && IsBlob(z) && x != y && y != z && z != x && |big| == 4 && |one| == 1
    ensures var run := [] + [PutOf(x, big, 1, [])] + [PutOf(y, one, 2, [])]
                       + [Event(GetOp(x, NO_GET_FAULTS), 3, [])] + [PutOf(z, one, 4, [])];
            Legal(2, EMPTY, run) && y in Live(After(2, EMPTY, run))
  {
    var get := Event(GetOp(x, NO_GET_FAULTS), 3, []);
    var s2 := State(map[y := File(one, 2)], 1, 1, map[y := 2]);
    assert Blobs(EMPTY.dir).Keys - {} == {};
    LegalSnoc(2, [], PutOf(x, big, 1, []));
    StoreFits(2, EMPTY, y, one, 2);
    LegalSnoc(2, [] + [PutOf(x, big, 1, [])], PutOf(y, one, 2, []));
    LegalSnoc(2, [] + [PutOf(x, big, 1, [])] + [PutOf(y, one, 2, [])], get);
    StoreFits(2, s2, z, one, 4);
    LegalSnoc(2, [] + [PutOf(x, big, 1, [])] + [PutOf(y, one, 2, [])] + [get], PutOf(z, one, 4, []));
  }

  lemma InLargeCache(x: Name, y: Name, big: Bytes, one: Bytes)
    requires IsBlob(x) && IsBlob(y) && x != y && |big| == 4 && |one| == 1
    ensures var run := [] + [PutOf(x, big, 1, [])] + [PutOf(y, one, 2, [])]
                       + [Event(GetOp(x, NO_GET_FAULTS), 3, [])];
            && Legal(5, EMPTY, run)
            && After(5, EMPTY, run) == TwoBlobs(x, y, big, one)
  {
    var get := Event(GetOp(x, NO_GET_FAULTS), 3, []);
    StoreFits(5, EMPTY, x, big, 1);
    LegalSnoc(5, [], PutOf(x, big, 1, []));
    StoreFits(5, State(map[x := File(big, 1)], 4, 1, map[x := 1]), y, one, 2);
    LegalSnoc(5, [] + [PutOf(x, big, 1, [])], PutOf(y, one, 2, []));
    LegalSnoc(5, [] + [PutOf(x, big, 1, [])] + [PutOf(y, one, 2, [])], get);
  }
}
