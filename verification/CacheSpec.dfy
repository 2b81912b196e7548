/** What each cache operation does to the directory, the counters and the access times. */
module CacheSpec {
  import opened BlobDir

  datatype State = State(dir: Dir, used: int, count: int, touched: map<Name, int>)

  const EMPTY := State(map[], 0, 0, map[])

  /** One candidate for eviction, as a directory scan sees it. */
  datatype Victim = Victim(name: Name, size: nat, ts: int)

  /** The counters describe the directory, and every blob has an access time. */
  ghost predicate Accounts(s: State) {
    && s.used == Total(Blobs(s.dir))
    && s.count == |Blobs(s.dir)|
    && Blobs(s.dir).Keys <= s.touched.Keys
  }

  /** What the counters claim beyond the directory: replaced files that are still counted. */
  datatype Excess = Excess(bytes: nat, files: nat)
  type Debt = d: Excess | d.files == 0 ==> d.bytes == 0 witness Excess(0, 0)

  const NO_DEBT: Debt := Excess(0, 0)

  function Plus(d: Debt, e: Debt): Debt {
    Excess(d.bytes + e.bytes, d.files + e.files)
  }

  /** As `Accounts`, but with replaced files still counted. */
  ghost predicate Owes(s: State, d: Debt) {
    && s.used == Total(Blobs(s.dir)) + d.bytes
    && s.count == |Blobs(s.dir)| + d.files
    && Blobs(s.dir).Keys <= s.touched.Keys
  }

  lemma NothingOwed(s: State)
    ensures Accounts(s) <==> Owes(s, NO_DEBT)
  {
  }

  /** One file too many shows in the counters, whatever its size. */
  lemma OwingShows(s: State, d: Debt)
    requires Owes(s, d)
    ensures Accounts(s) <==> d.files == 0
  {
  }

  // ---------- the initial scan ----------

  /** The blobs the scan gets to see when listing may fail and some entries cannot be examined. */
  function Seen(dir: Dir, listFails: bool, hidden: set<Name>): Dir {
    if listFails then map[] else Blobs(dir) - hidden
  }

  /** The access times the scan assigns. */
  function Times(m: Dir): map<Name, int> {
    map n | n in m :: m[n].mtime
  }

  /** The state whose counters and times describe exactly the blobs in `seen`. */
  ghost function Tally(dir: Dir, seen: Dir): State {
    State(dir, Total(seen), |seen|, Times(seen))
  }

  ghost function Scan(dir: Dir, listFails: bool, hidden: set<Name>): State {
    Tally(dir, Seen(dir, listFails, hidden))
  }

  /** A fresh cache describes its directory exactly when the scan missed no blob. */
  lemma ScanAccounts(dir: Dir, listFails: bool, hidden: set<Name>)
    ensures Accounts(Scan(dir, listFails, hidden)) <==>
            (listFails ==> Blobs(dir) == map[]) && hidden !! Blobs(dir).Keys
  {
    var seen := Seen(dir, listFails, hidden);
    if hidden !! Blobs(dir).Keys {
      assert Blobs(dir) - hidden == Blobs(dir);
    }
    if listFails && Blobs(dir) != map[] {
      assert |seen| != |Blobs(dir)|;
    } else if n :| n in hidden && n in Blobs(dir) {
      assert n !in Scan(dir, listFails, hidden).touched;
    }
  }

  // ---------- eviction ----------

  function Stamp(s: State, n: Name): int
    requires n in s.dir
  {
    if n in s.touched then s.touched[n] else s.dir[n].mtime
  }

  /** The names listed in `order` whose files can be removed, and how many bytes these hold. */
  function Removable(order: seq<Victim>, stuck: set<Name>): set<Name> {
    if order == [] then {}
    else if order[0].name in stuck then Removable(order[1..], stuck)
    else {order[0].name} + Removable(order[1..], stuck)
  }

  function Freed(order: seq<Victim>, stuck: set<Name>): nat {
    if order == [] then 0
    else if order[0].name in stuck then Freed(order[1..], stuck)
    else order[0].size + Freed(order[1..], stuck)
  }

  /** Each name once, naming a file of `m`, with the size of that file. */
  ghost predicate Candidates(m: Dir, order: seq<Victim>) {
    && (forall i, j | 0 <= i < j < |order| :: order[i].name != order[j].name)
    && (forall i | 0 <= i < |order| :: order[i].name in m && order[i].size == |m[order[i].name].data|)
  }

  /** `order` lists every visible blob, oldest access first; equal times come in any order. */
  ghost predicate ValidOrder(s: State, hidden: set<Name>, order: seq<Victim>) {
    && Candidates(Blobs(s.dir), order)
    && Removable(order, {}) == Blobs(s.dir).Keys - hidden
    && (forall i | 0 <= i < |order| :: order[i].ts == Stamp(s, order[i].name))
    && (forall i, j | 0 <= i < j < |order| :: order[i].ts <= order[j].ts)
  }

  function Drop(s: State, v: Victim): State {
    State(s.dir - {v.name}, s.used - v.size, s.count - 1, s.touched - {v.name})
  }

  function Evict(s: State, order: seq<Victim>, needed: int, stuck: set<Name>): State
    decreases |order|
  {
    if order == [] || needed <= 0 then s
    else if order[0].name in stuck then Evict(s, order[1..], needed, stuck)
    else Evict(Drop(s, order[0]), order[1..], needed - order[0].size, stuck)
  }

  /** The state after removing exactly the names in `gone`, which hold `bytes` bytes. */
  function Without(s: State, gone: set<Name>, bytes: int): State {
    State(s.dir - gone, s.used - bytes, s.count - |gone|, s.touched - gone)
  }

  /** `k` is the shortest prefix of `order` whose removable files reach `needed`, or all of it. */
  predicate Shortest(order: seq<Victim>, needed: int, stuck: set<Name>, k: nat) {
    && k <= |order|
    && (k == |order| || needed <= Freed(order[..k], stuck))
    && (forall j | 0 <= j < k :: Freed(order[..j], stuck) < needed)
  }

  lemma {:induction false} RemovableNames(order: seq<Victim>, stuck: set<Name>, n: Name)
    ensures n in Removable(order, stuck)
            <==> n !in stuck && exists i :: 0 <= i < |order| && order[i].name == n
  {
    if order != [] {
      RemovableNames(order[1..], stuck, n);
      if i :| 0 <= i < |order| && order[i].name == n {
        if i > 0 { assert order[1..][i - 1].name == n; }
      }
      if j :| 0 <= j < |order[1..]| && order[1..][j].name == n { assert order[j + 1].name == n; }
    }
  }

  lemma CandidatesTail(m: Dir, order: seq<Victim>, stuck: set<Name>)
    requires Candidates(m, order) && order != []
    ensures order[0].name in m && order[0].size == |m[order[0].name].data|
    ensures order[0].name !in Removable(order[1..], stuck)
    ensures Candidates(m, order[1..])
    ensures Candidates(m - {order[0].name}, order[1..])
  {
    var rest := order[1..];
    forall i | 0 <= i < |rest|
      ensures rest[i].name != order[0].name && rest[i].name in m && rest[i].size == |m[rest[i].name].data|
    {
      assert rest[i] == order[i + 1];
    }
    RemovableNames(rest, stuck, order[0].name);
  }

  /** How many victims the eviction loop looks at. */
  function Visited(order: seq<Victim>, needed: int, stuck: set<Name>): (k: nat)
    ensures k <= |order|
  {
    if order == [] || needed <= 0 then 0
    else 1 + Visited(order[1..], needed - Freed(order[..1], stuck), stuck)
  }

  lemma FreedCons(order: seq<Victim>, j: nat, stuck: set<Name>)
    requires j < |order|
    ensures Freed(order[..j + 1], stuck) == Freed(order[..1], stuck) + Freed(order[1..][..j], stuck)
    ensures Removable(order[..j + 1], stuck) == Removable(order[..1], stuck) + Removable(order[1..][..j], stuck)
  {
    assert order[..j + 1][1..] == order[1..][..j];
    assert order[..1][1..] == [];
  }

  /** The loop stops as soon as it has freed enough, and not before unless nothing is left. */
  lemma {:induction false} VisitsShortestPrefix(order: seq<Victim>, needed: int, stuck: set<Name>)
    ensures Shortest(order, needed, stuck, Visited(order, needed, stuck))
  {
    if order == [] || needed <= 0 {
    } else {
      var rest, k := order[1..], Visited(order, needed, stuck);
      VisitsShortestPrefix(rest, needed - Freed(order[..1], stuck), stuck);
      FreedCons(order, k - 1, stuck);
      forall j | 0 < j < k
        ensures Freed(order[..j], stuck) < needed
      {
        FreedCons(order, j - 1, stuck);
      }
    }
  }

  lemma WithoutNothing(s: State)
    ensures Without(s, {}, 0) == s
  {
    assert s.touched - {} == s.touched;
    assert s.dir - {} == s.dir;
  }

  lemma DropThenWithout(s: State, v: Victim, gone: set<Name>, bytes: int)
    requires v.name !in gone
    ensures Without(Drop(s, v), gone, bytes) == Without(s, {v.name} + gone, v.size + bytes)
  {
    assert s.dir - {v.name} - gone == s.dir - ({v.name} + gone);
    assert s.touched - {v.name} - gone == s.touched - ({v.name} + gone);
  }

  /** What the first of several visited victims contributes. */
  lemma PrefixStep(m: Dir, order: seq<Victim>, k: nat, stuck: set<Name>)
    requires Candidates(m, order) && 0 < k <= |order|
    ensures var v, rest := order[0], order[1..][..k - 1];
            if v.name in stuck then
              && Removable(order[..k], stuck) == Removable(rest, stuck)
              && Freed(order[..k], stuck) == Freed(rest, stuck)
            else
              && Removable(order[..k], stuck) == {v.name} + Removable(rest, stuck)
              && Freed(order[..k], stuck) == v.size + Freed(rest, stuck)
              && v.name !in Removable(rest, stuck)
  {
    FreedCons(order, k - 1, stuck);
    CandidatesPrefix(m, order, k);
    assert order[..k][1..] == order[1..][..k - 1];
    CandidatesTail(m, order[..k], stuck);
  }

  /** Eviction removes the removable files of that prefix, and changes nothing else. */
  lemma {:induction false} EvictRemovesPrefix(m: Dir, s: State, order: seq<Victim>, needed: int, stuck: set<Name>)
    requires Candidates(m, order)
    ensures var seen := order[..Visited(order, needed, stuck)];
            Evict(s, order, needed, stuck) == Without(s, Removable(seen, stuck), Freed(seen, stuck))
    decreases |order|
  {
    hide Candidates, Removable;
    var k := Visited(order, needed, stuck);
    if k == 0 {
      assert order[..k] == [];
      NothingRemovable(stuck);
      WithoutNothing(s);
    } else {
      var v, rest := order[0], order[1..];
      assert Freed(order[..1], stuck) == (if v.name in stuck then 0 else v.size);
      CandidatesTail(m, order, stuck);
      PrefixStep(m, order, k, stuck);
      if v.name in stuck {
        EvictRemovesPrefix(m, s, rest, needed, stuck);
      } else {
        EvictRemovesPrefix(m, Drop(s, v), rest, needed - v.size, stuck);
        DropThenWithout(s, v, Removable(rest[..k - 1], stuck), Freed(rest[..k - 1], stuck));
      }
    }
  }

  lemma CandidatesPrefix(m: Dir, order: seq<Victim>, k: nat)
    requires Candidates(m, order) && k <= |order|
    ensures Candidates(m, order[..k])
  {
  }

  lemma RemovingNone(m: Dir)
    ensures m - {} == m
  {
  }

  lemma RemovingOneMore(m: Dir, n: Name, gone: set<Name>, freed: nat)
    requires n in m && n !in gone && gone <= (m - {n}).Keys
    requires Total(m - {n}) == freed + Total(m - {n} - gone)
    requires |m - {n}| == |gone| + |m - {n} - gone|
    ensures {n} + gone <= m.Keys
    ensures Total(m) == |m[n].data| + freed + Total(m - ({n} + gone))
    ensures |m| == |{n} + gone| + |m - ({n} + gone)|
  {
    TotalMinus(m, n);
    assert m - {n} - gone == m - ({n} + gone);
    assert m.Keys - {n} == (m - {n}).Keys;
  }

  /** Removing a set of listed files takes exactly their sizes and their number away. */
  lemma {:induction false} RemovingMany(m: Dir, order: seq<Victim>, stuck: set<Name>)
    requires Candidates(m, order)
    ensures Removable(order, stuck) <= m.Keys
    ensures Total(m) == Freed(order, stuck) + Total(m - Removable(order, stuck))
    ensures |m| == |Removable(order, stuck)| + |m - Removable(order, stuck)|
    decreases |order|
  {
    if order == [] {
      RemovingNone(m);
    } else {
      var n, rest := order[0].name, order[1..];
      CandidatesTail(m, order, stuck);
      if n in stuck {
        RemovingMany(m, rest, stuck);
      } else {
        RemovingMany(m - {n}, rest, stuck);
        RemovingOneMore(m, n, Removable(rest, stuck), Freed(rest, stuck));
      }
    }
  }

  ghost predicate Loses(s: State, t: State, gone: set<Name>) {
    gone <= Blobs(s.dir).Keys && t.dir == s.dir - gone && t.touched == s.touched - gone
  }

  /**
   The eviction loop removes the removable files of the shortest oldest-first prefix that frees
   `needed` bytes, or of all files when none does, and changes nothing else.
   */
  lemma EvictionIsMinimal(s: State, hidden: set<Name>, order: seq<Victim>, needed: int, stuck: set<Name>)
    returns (k: nat)
    requires ValidOrder(s, hidden, order)
    ensures Shortest(order, needed, stuck, k)
    ensures Evict(s, order, needed, stuck)
            == Without(s, Removable(order[..k], stuck), Freed(order[..k], stuck))
  {
    k := Visited(order, needed, stuck);
    VisitsShortestPrefix(order, needed, stuck);
    EvictRemovesPrefix(Blobs(s.dir), s, order, needed, stuck);
  }

  /** Eviction only loses blobs, together with their access times. */
  lemma EvictLoses(s: State, order: seq<Victim>, needed: int, stuck: set<Name>)
    requires Candidates(Blobs(s.dir), order)
    ensures Loses(s, Evict(s, order, needed, stuck), Removable(order[..Visited(order, needed, stuck)], stuck))
  {
    var k := Visited(order, needed, stuck);
    EvictRemovesPrefix(Blobs(s.dir), s, order, needed, stuck);
    CandidatesPrefix(Blobs(s.dir), order, k);
    RemovingMany(Blobs(s.dir), order[..k], stuck);
  }

  /** Whatever cannot be removed, eviction records every removal, and settles no debt. */
  lemma EvictOwes(s: State, d: Debt, order: seq<Victim>, needed: int, stuck: set<Name>)
    requires Owes(s, d) && Candidates(Blobs(s.dir), order)
    ensures Owes(Evict(s, order, needed, stuck), d)
  {
    var k := Visited(order, needed, stuck);
    EvictRemovesPrefix(Blobs(s.dir), s, order, needed, stuck);
    CandidatesPrefix(Blobs(s.dir), order, k);
    RemovingMany(Blobs(s.dir), order[..k], stuck);
    BlobsMinus(s.dir, Removable(order[..k], stuck));
  }

  /** Whatever cannot be removed, the counters still describe the directory afterwards. */
  lemma EvictAccounts(s: State, order: seq<Victim>, needed: int, stuck: set<Name>)
    requires Accounts(s) && Candidates(Blobs(s.dir), order)
    ensures Accounts(Evict(s, order, needed, stuck))
  {
    EvictOwes(s, NO_DEBT, order, needed, stuck);
  }

  function Live(s: State): set<Name> {
    Blobs(s.dir).Keys
  }

  /** Going from `live` to `left` removed `last` and only names that are no newer than `last`. */
  ghost predicate OldestGo(live: set<Name>, left: set<Name>, times: map<Name, int>, last: Name)
    requires left <= live <= times.Keys
  {
    && last in live && last !in left
    && (forall n | n in live && n !in left :: times[n] <= times[last])
    && (forall n | n in left :: times[last] <= times[n])
  }

  /**
   `t` is `s` after evicting the oldest blobs, and no more of them than needed: with the newest
   evicted blob kept, more than `goal` bytes would have been in use.
   */
  ghost predicate Trimmed(s: State, t: State, goal: int)
    requires Accounts(s)
  {
    && Accounts(t)
    && Live(t) <= Live(s)
    && (forall n | n in Live(t) :: t.dir[n] == s.dir[n] && t.touched[n] == s.touched[n])
    && (t == s || exists last ::
          OldestGo(Live(s), Live(t), s.touched, last) && goal < t.used + |s.dir[last].data|)
  }

  lemma {:induction false} FreedLast(order: seq<Victim>, stuck: set<Name>)
    requires order != []
    ensures var last := order[|order| - 1];
            Freed(order, stuck) == Freed(order[..|order| - 1], stuck) + if last.name in stuck then 0 else last.size
  {
    if |order| > 1 {
      FreedLast(order[1..], stuck);
      assert order[..|order| - 1][1..] == order[1..][..|order[1..]| - 1];
    }
  }

  /** In a full listing, a blob is among the first `k` names exactly when its position is. */
  lemma PlaceOf(s: State, order: seq<Victim>, k: nat, n: Name) returns (i: nat)
    requires ValidOrder(s, {}, order) && k <= |order| && n in Blobs(s.dir)
    ensures i < |order| && order[i].name == n && order[i].ts == Stamp(s, n)
    ensures n in Removable(order[..k], {}) <==> i < k
  {
    RemovableNames(order, {}, n);
    i :| 0 <= i < |order| && order[i].name == n;
    RemovableNames(order[..k], {}, n);
    if i < k { assert order[..k][i].name == n; }
    if j :| 0 <= j < k && order[..k][j].name == n { assert order[j].name == n; }
  }

  lemma EvictedAreOldest(s: State, order: seq<Victim>, k: nat)
    requires ValidOrder(s, {}, order) && 0 < k <= |order|
    ensures var gone, last := Removable(order[..k], {}), order[k - 1];
            && last.name in gone && last.name in Blobs(s.dir) && last.ts == Stamp(s, last.name)
            && (forall n | n in Blobs(s.dir) && n in gone :: Stamp(s, n) <= last.ts)
            && (forall n | n in Blobs(s.dir) && n !in gone :: last.ts <= Stamp(s, n))
  {
    var last := order[k - 1];
    RemovableNames(order[..k], {}, last.name);
    assert order[..k][k - 1] == last;
    forall n | n in Blobs(s.dir)
      ensures n in Removable(order[..k], {}) ==> Stamp(s, n) <= last.ts
      ensures n !in Removable(order[..k], {}) ==> last.ts <= Stamp(s, n)
    {
      var i := PlaceOf(s, order, k, n);
    }
  }

  /** Where a listed name stands. */
  lemma IndexOf(order: seq<Victim>, stuck: set<Name>, n: Name) returns (i: nat)
    requires n in Removable(order, stuck)
    ensures i < |order| && order[i].name == n && n !in stuck
  {
    RemovableNames(order, stuck, n);
    i :| 0 <= i < |order| && order[i].name == n;
  }

  /**
   Under any failures, no blob goes before an older one that was listed and could be removed. Age is
   the access time, or for a blob without one the modification time of its file.
   */
  lemma {:induction false} OlderGoFirst(s: State, hidden: set<Name>, order: seq<Victim>, needed: int, stuck: set<Name>,
                                        n: Name, m: Name)
    requires ValidOrder(s, hidden, order)
    requires n in s.dir && n !in Evict(s, order, needed, stuck).dir
    requires m in Evict(s, order, needed, stuck).dir && IsBlob(m) && m !in hidden && m !in stuck
    ensures m in s.dir
    ensures (if n in s.touched then s.touched[n] else s.dir[n].mtime)
            <= (if m in s.touched then s.touched[m] else s.dir[m].mtime)
  {
    hide IsBlob, Evict, Visited, Removable;
    var k := Visited(order, needed, stuck);
    OrderedStamps(s, hidden, order);
    EvictRemovesPrefix(Blobs(s.dir), s, order, needed, stuck);
    var i := IndexOf(order[..k], stuck, n);
    assert m in Removable(order, {});
    var j := IndexOf(order, {}, m);
    if j < k {
      assert order[..k][j].name == m;
      RemovableNames(order[..k], stuck, m);
    }
    assert order[..k][i] == order[i];
  }

  lemma OrderedStamps(s: State, hidden: set<Name>, order: seq<Victim>)
    requires ValidOrder(s, hidden, order)
    ensures Candidates(Blobs(s.dir), order)
    ensures forall n | n in s.dir && IsBlob(n) && n !in hidden :: n in Removable(order, {})
  {
  }

  /** Fault-free eviction reaches its goal or empties the cache. */
  lemma EvictReaches(s: State, order: seq<Victim>, needed: int)
    requires Accounts(s) && ValidOrder(s, {}, order)
    ensures var t := Evict(s, order, needed, {});
            Accounts(t) && (t.used <= s.used - needed || Live(t) == {})
  {
    hide IsBlob, Evict, Visited, Candidates, Blobs;
    var k := Visited(order, needed, {});
    EvictAccounts(s, order, needed, {});
    EvictRemovesPrefix(Blobs(s.dir), s, order, needed, {});
    VisitsShortestPrefix(order, needed, {});
    if k == |order| {
      assert order[..k] == order;
      BlobsMinus(s.dir, Removable(order, {}));
      assert Live(s) - {} == Live(s);
    }
  }

  lemma LosesLive(s: State, t: State, gone: set<Name>)
    requires Accounts(s) && Loses(s, t, gone)
    ensures Live(t) == Live(s) - gone
    ensures forall n | n in Live(t) :: n in t.dir && t.dir[n] == s.dir[n] && n in t.touched && t.touched[n] == s.touched[n]
  {
    BlobsMinus(s.dir, gone);
  }

  /** The newest evicted blob was needed: without it, too few bytes had been freed. */
  lemma LastWasNeeded(s: State, order: seq<Victim>, needed: int, k: nat)
    requires ValidOrder(s, {}, order) && Shortest(order, needed, {}, k) && k > 0
    ensures order[k - 1].name in s.dir
    ensures s.used - needed < s.used - Freed(order[..k], {}) + |s.dir[order[k - 1].name].data|
  {
    hide Freed, Removable;
    FreedLast(order[..k], {});
    assert order[..k][..k - 1] == order[..k - 1];
    RemovableNames(order[..k], {}, order[k - 1].name);
  }

  /** Fault-free eviction also removes the oldest blobs first, and no more of them than needed. */
  lemma EvictTrims(s: State, order: seq<Victim>, needed: int)
    requires Accounts(s) && ValidOrder(s, {}, order)
    ensures var t := Evict(s, order, needed, {});
            && Trimmed(s, t, s.used - needed)
            && (t.used <= s.used - needed || Live(t) == {})
  {
    hide IsBlob, Evict, Visited, Blobs, Removable, Freed, Accounts, ValidOrder;
    var t, k := Evict(s, order, needed, {}), Visited(order, needed, {});
    EvictReaches(s, order, needed);
    OrderIsCandidates(s, order);
    EvictRemovesPrefix(Blobs(s.dir), s, order, needed, {});
    VisitsShortestPrefix(order, needed, {});
    EvictLoses(s, order, needed, {});
    LosesLive(s, t, Removable(order[..k], {}));
    if k == 0 {
      assert order[..k] == [];
      NothingRemovable({});
      WithoutNothing(s);
    } else {
      LastWasNeeded(s, order, needed, k);
      EvictedAreOldest(s, order, k);
      TimesAreStamps(s);
      assert OldestGo(Live(s), Live(t), s.touched, order[k - 1].name);
    }
  }

  lemma OrderIsCandidates(s: State, order: seq<Victim>)
    requires ValidOrder(s, {}, order)
    ensures Candidates(Blobs(s.dir), order)
  {
  }

  lemma NothingRemovable(stuck: set<Name>)
    ensures Removable([], stuck) == {} && Freed([], stuck) == 0
  {
  }

  lemma TimesAreStamps(s: State)
    requires Accounts(s)
    ensures Live(s) <= s.touched.Keys && forall n | n in Live(s) :: n in s.dir && s.touched[n] == Stamp(s, n)
  {
  }
}
