/**
 The cache as concurrent callers run it: the lock holder advances one file operation or one counter
 update at a time, while any number of readers stat, open and touch blobs in between.
 */
module CacheSteps {
  import opened BlobDir
  import opened Common
  import opened CacheSpec
  import opened CacheOps

  /** Where the holder of the lock is. `needed` is what eviction still has to free. */
  datatype Phase =
    | Idle
    | Listing(name: Name, size: int, needed: int)
    | Evicting(name: Name, size: int, needed: int, todo: seq<Victim>)
    | Writing(name: Name, size: int)
    | Renaming(name: Name, data: Bytes)
    | Crediting(name: Name, bytes: nat)         // renamed, usedSize not yet raised
    | Counting(name: Name)                      // usedSize raised, count and time not yet
    | Removing(name: Name, bytes: nat)
    | Debiting(v: Victim, next: Phase)          // file gone, usedSize not yet lowered
    | Forgetting(v: Victim, next: Phase)        // usedSize lowered, count and time not yet

  /** How far one `Get` has come; `size` is what its `Stat` reported. */
  datatype Reader =
    | Statted(name: Name, size: int)
    | Opened(name: Name, size: int, data: Bytes)
    | Returned(name: Name, size: int, data: Bytes)

  datatype Sys = Sys(s: State, phase: Phase, readers: map<nat, Reader>)

  datatype Action =
    | PutBegin(name: Name, size: int, statFails: bool, now: int)
    | List(fails: bool, hidden: set<Name>, order: seq<Victim>)
    | EvictNext(fails: bool)
    | WriteTmp(createFails: bool, copyFails: bool, cleanupFails: bool, data: Bytes, now: int)
    | RenameTmp(fails: bool, cleanupFails: bool, now: int)
    | Credit
    | CountIn(now: int)
    | RemoveBegin(name: Name, statFails: bool)
    | Unlink(fails: bool)
    | Debit
    | Forget
    | StatBlob(id: nat, name: Name, fails: bool)
    | OpenBlob(id: nat, fails: bool)
    | TouchBlob(id: nat, now: int)

  ghost predicate Enabled(sys: Sys, a: Action) {
    match a
    case PutBegin(name, _, _, _) => sys.phase.Idle? && IsBlob(name)
    case List(fails, hidden, order) => sys.phase.Listing? && (fails || ValidOrder(sys.s, hidden, order))
    case EvictNext(_) => sys.phase.Evicting?
    case WriteTmp(_, _, _, _, _) => sys.phase.Writing?
    case RenameTmp(_, _, _) => sys.phase.Renaming?
    case Credit => sys.phase.Crediting?
    case CountIn(_) => sys.phase.Counting?
    case RemoveBegin(name, _) => sys.phase.Idle? && IsBlob(name)
    case Unlink(_) => sys.phase.Removing?
    case Debit => sys.phase.Debiting?
    case Forget => sys.phase.Forgetting?
    case StatBlob(id, name, _) => id !in sys.readers && IsBlob(name)
    case OpenBlob(id, _) => id in sys.readers && sys.readers[id].Statted?
    case TouchBlob(id, _) => sys.phase.Idle? && id in sys.readers && sys.readers[id].Opened?
  }

  function BeginStep(max: int, s: State, a: Action): (State, Phase)
    requires a.PutBegin?
  {
    if a.name in s.dir && !a.statFails then (s.(touched := s.touched[a.name := a.now]), Idle)
    else if s.used + a.size > max then (s, Listing(a.name, a.size, s.used + a.size - max))
    else (s, Writing(a.name, a.size))
  }

  function EvictStep(max: int, s: State, p: Phase, fails: bool): (State, Phase)
    requires p.Evicting?
  {
    if p.todo == [] || p.needed <= 0 then
      (s, if s.used + p.size > max then Idle else Writing(p.name, p.size))
    else
      var v, rest := p.todo[0], p.todo[1..];
      if fails then (s, Evicting(p.name, p.size, p.needed, rest))
      else (s.(dir := s.dir - {v.name}), Debiting(v, Evicting(p.name, p.size, p.needed - v.size, rest)))
  }

  function WriteStep(s: State, p: Phase, a: Action): (State, Phase)
    requires p.Writing? && a.WriteTmp?
  {
    var tmp := TmpName(p.name);
    if a.createFails then (s, Idle)
    else if !a.copyFails then (s.(dir := s.dir[tmp := File(a.data, a.now)]), Renaming(p.name, a.data))
    else (s.(dir := if a.cleanupFails then s.dir[tmp := File(a.data, a.now)] else s.dir - {tmp}), Idle)
  }

  function RenameStep(s: State, p: Phase, a: Action): (State, Phase)
    requires p.Renaming? && a.RenameTmp?
  {
    var tmp := TmpName(p.name);
    if a.fails then (s.(dir := if a.cleanupFails then s.dir else s.dir - {tmp}), Idle)
    else (s.(dir := (s.dir - {tmp})[p.name := File(p.data, a.now)]), Crediting(p.name, |p.data|))
  }

  function UnlinkStep(s: State, p: Phase, fails: bool): (State, Phase)
    requires p.Removing?
  {
    if fails then (s, Idle)
    else (s.(dir := s.dir - {p.name}), Debiting(Victim(p.name, p.bytes, 0), Idle))
  }

  /** The steps of the lock holder. */
  function Hold(max: int, s: State, p: Phase, a: Action): (State, Phase) {
    match a
    case PutBegin(_, _, _, _) => if p.Idle? then BeginStep(max, s, a) else (s, p)
    case List(fails, _, order) =>
      if !p.Listing? then (s, p)
      else (s, if fails || order == [] then Idle else Evicting(p.name, p.size, p.needed, order))
    case EvictNext(fails) => if p.Evicting? then EvictStep(max, s, p, fails) else (s, p)
    case WriteTmp(_, _, _, _, _) => if p.Writing? then WriteStep(s, p, a) else (s, p)
    case RenameTmp(_, _, _) => if p.Renaming? then RenameStep(s, p, a) else (s, p)
    case Credit =>
      if p.Crediting? then (s.(used := s.used + p.bytes), Counting(p.name)) else (s, p)
    case CountIn(now) =>
      if p.Counting? then (s.(count := s.count + 1, touched := s.touched[p.name := now]), Idle) else (s, p)
    case RemoveBegin(name, statFails) =>
      if !p.Idle? || name !in s.dir || statFails then (s, p) else (s, Removing(name, |s.dir[name].data|))
    case Unlink(fails) => if p.Removing? then UnlinkStep(s, p, fails) else (s, p)
    case Debit =>
      if p.Debiting? then (s.(used := s.used - p.v.size), Forgetting(p.v, p.next)) else (s, p)
    case Forget =>
      if p.Forgetting? then (s.(count := s.count - 1, touched := s.touched - {p.v.name}), p.next) else (s, p)
    case _ => (s, p)
  }

  /** The steps of a reader; only the last one needs the lock. */
  function Read(sys: Sys, a: Action): Sys {
    match a
    case StatBlob(id, name, fails) =>
      if name !in sys.s.dir || fails then sys
      else sys.(readers := sys.readers[id := Statted(name, |sys.s.dir[name].data|)])
    case OpenBlob(id, fails) =>
      if id !in sys.readers then sys
      else
        var r := sys.readers[id];
        if r.name !in sys.s.dir || fails then sys.(readers := sys.readers - {id})
        else sys.(readers := sys.readers[id := Opened(r.name, r.size, sys.s.dir[r.name].data)])
    case TouchBlob(id, now) =>
      if id !in sys.readers || !sys.readers[id].Opened? then sys
      else
        var r := sys.readers[id];
        sys.(s := sys.s.(touched := sys.s.touched[r.name := now]),
             readers := sys.readers[id := Returned(r.name, r.size, r.data)])
    case _ => sys
  }

  predicate Reads(a: Action) {
    a.StatBlob? || a.OpenBlob? || a.TouchBlob?
  }

  function Next(max: int, sys: Sys, a: Action): Sys {
    if Reads(a) then Read(sys, a)
    else
      var (s, phase) := Hold(max, sys.s, sys.phase, a);
      Sys(s, phase, sys.readers)
  }

  function Run(max: int, sys: Sys, acts: seq<Action>): Sys {
    if acts == [] then sys else Next(max, Run(max, sys, Init(acts)), Last(acts))
  }

  /** Every step is possible where it is taken and satisfies `ok` there. */
  ghost predicate Runs(max: int, sys: Sys, acts: seq<Action>, ok: (Sys, Action) -> bool) {
    acts == [] ||
    var before := Run(max, sys, Init(acts));
    Runs(max, sys, Init(acts), ok) && Enabled(before, Last(acts)) && ok(before, Last(acts))
  }

  predicate AnyStep(sys: Sys, a: Action) {
    true
  }

  // ---------- accounting ----------

  function PendingBytes(p: Phase): int {
    match p
    case Debiting(v, _) => v.size
    case Crediting(_, bytes) => 0 - bytes as int
    case _ => 0
  }

  function PendingFiles(p: Phase): int {
    if p.Debiting? || p.Forgetting? then 1 else if p.Crediting? || p.Counting? then -1 else 0
  }

  function Untimed(p: Phase): set<Name> {
    match p
    case Crediting(name, _) => {name}
    case Counting(name) => {name}
    case _ => {}
  }

  /** The counters are off by the replaced files and by what the lock holder has not recorded yet. */
  ghost predicate Balanced(s: State, p: Phase, d: Debt) {
    && s.used == Total(Blobs(s.dir)) + PendingBytes(p) + d.bytes
    && s.count == |Blobs(s.dir)| + PendingFiles(p) + d.files
    && Live(s) <= s.touched.Keys + Untimed(p)
  }

  /** What the lock holder knows about the directory. */
  ghost predicate Knows(dir: Dir, p: Phase) {
    match p
    case Idle => true
    case Listing(name, _, _) => IsBlob(name)
    case Evicting(name, _, _, todo) => IsBlob(name) && Candidates(Blobs(dir), todo)
    case Writing(name, _) => IsBlob(name)
    case Renaming(name, _) => IsBlob(name)
    case Crediting(name, _) => IsBlob(name) && name in dir
    case Counting(name) => IsBlob(name) && name in dir
    case Removing(name, bytes) => IsBlob(name) && name in dir && bytes == |dir[name].data|
    case Debiting(v, next) => v.name !in dir && Resumes(dir, next)
    case Forgetting(v, next) => v.name !in dir && Resumes(dir, next)
  }

  ghost predicate Resumes(dir: Dir, p: Phase) {
    match p
    case Idle => true
    case Evicting(name, _, _, todo) => IsBlob(name) && Candidates(Blobs(dir), todo)
    case _ => false
  }

  ghost predicate Sound(s: State, p: Phase, d: Debt) {
    Balanced(s, p, d) && Knows(s.dir, p)
  }

  /** The file that a step replaces: only a successful rename over a blob does. */
  function ReplacedAt(sys: Sys, a: Action): Debt {
    if a.RenameTmp? && !a.fails && sys.phase.Renaming? && sys.phase.name in sys.s.dir
    then Excess(|sys.s.dir[sys.phase.name].data|, 1) else NO_DEBT
  }

  function ReplacedBy(max: int, sys: Sys, acts: seq<Action>): Debt {
    if acts == [] then NO_DEBT
    else Plus(ReplacedBy(max, sys, Init(acts)), ReplacedAt(Run(max, sys, Init(acts)), Last(acts)))
  }

  lemma UnlinkSound(s: State, n: Name, bytes: nat, p: Phase, next: Phase, d: Debt)
    requires Balanced(s, p, d) && PendingBytes(p) == 0 && PendingFiles(p) == 0 && Untimed(p) == {}
    requires n in s.dir && IsBlob(n) && bytes == |s.dir[n].data|
    requires Resumes(s.dir - {n}, next)
    ensures Sound(s.(dir := s.dir - {n}), Debiting(Victim(n, bytes, 0), next), d)
  {
    BlobRemoved(s.dir, n);
    BlobsMinus(s.dir, {n});
  }

  lemma BlobIsFile(dir: Dir, n: Name)
    requires n in Blobs(dir)
    ensures n in dir && IsBlob(n) && Blobs(dir)[n] == dir[n]
  {
  }

  lemma EvictStepSound(max: int, s: State, p: Phase, fails: bool, d: Debt)
    requires Sound(s, p, d) && p.Evicting?
    ensures var (t, q) := EvictStep(max, s, p, fails); Sound(t, q, d)
  {
    hide IsBlob, Total, Blobs, Candidates;
    if p.todo != [] && p.needed > 0 {
      var v := p.todo[0];
      CandidatesTail(Blobs(s.dir), p.todo, {});
      BlobsMinus(s.dir, {v.name});
      if !fails {
        BlobIsFile(s.dir, v.name);
        UnlinkSound(s, v.name, v.size, p, Evicting(p.name, p.size, p.needed - v.size, p.todo[1..]), d);
        assert v == Victim(v.name, v.size, v.ts);
      }
    }
  }

  lemma TmpStepBalanced(s: State, p: Phase, dir: Dir, q: Phase, d: Debt)
    requires Balanced(s, p, d) && Blobs(dir) == Blobs(s.dir)
    requires (p.Writing? || p.Renaming?) && (q.Idle? || q.Renaming?)
    ensures Balanced(s.(dir := dir), q, d)
  {
    hide IsBlob, Total, Blobs;
  }

  /** Changes to temporary files change nothing that matters. */
  lemma TmpStepSound(s: State, p: Phase, dir: Dir, q: Phase, d: Debt)
    requires Sound(s, p, d) && (p.Writing? || p.Renaming?)
    requires Blobs(dir) == Blobs(s.dir) && (p.name in dir <==> p.name in s.dir)
    requires q == Idle || (q.Renaming? && q.name == p.name)
    ensures Sound(s.(dir := dir), q, d)
  {
    hide IsBlob, Blobs, Candidates, Balanced;
    TmpStepBalanced(s, p, dir, q, d);
  }

  lemma WriteStepSound(s: State, p: Phase, a: Action, d: Debt)
    requires Sound(s, p, d) && p.Writing? && a.WriteTmp?
    ensures var (t, q) := WriteStep(s, p, a); Sound(t, q, d)
  {
    hide IsBlob, TmpName, Total, Blobs, Candidates, Balanced;
    var (t, q) := WriteStep(s, p, a);
    TmpLeavesBlobs(s.dir, p.name, File(a.data, a.now));
    TmpLeavesName(s.dir, p.name, File(a.data, a.now));
    TmpStepSound(s, p, t.dir, q, d);
  }

  lemma RenamedSound(s: State, p: Phase, dir: Dir, d: Debt, e: Debt)
    requires Sound(s, p, d) && p.Renaming? && p.name in dir
    requires Live(s.(dir := dir)) == Live(s) + {p.name}
    requires Total(Blobs(dir)) + e.bytes == Total(Blobs(s.dir)) + |p.data|
    requires |Blobs(dir)| + e.files == |Blobs(s.dir)| + 1
    ensures Sound(s.(dir := dir), Crediting(p.name, |p.data|), Plus(d, e))
  {
    hide IsBlob, Total, Blobs, Candidates;
  }

  lemma RenameStepSound(s: State, p: Phase, a: Action, d: Debt)
    requires Sound(s, p, d) && p.Renaming? && a.RenameTmp?
    ensures var (t, q) := RenameStep(s, p, a);
            var e: Debt := if !a.fails && p.name in s.dir then Excess(|s.dir[p.name].data|, 1) else NO_DEBT;
            Sound(t, q, Plus(d, e))
  {
    hide IsBlob, TmpName, Total, Blobs, Candidates, Balanced;
    var (t, q) := RenameStep(s, p, a);
    var f := File(p.data, a.now);
    if a.fails {
      TmpLeavesBlobs(s.dir, p.name, f);
      TmpLeavesName(s.dir, p.name, f);
      TmpStepSound(s, p, t.dir, q, d);
    } else if p.name in s.dir {
      RenameReplacesBlob(s.dir, p.name, f);
      RenamedSound(s, p, t.dir, d, Excess(|s.dir[p.name].data|, 1));
    } else {
      RenameAddsBlob(s.dir, p.name, f);
      RenamedSound(s, p, t.dir, d, NO_DEBT);
    }
  }

  lemma UnlinkStepSound(s: State, p: Phase, fails: bool, d: Debt)
    requires Sound(s, p, d) && p.Removing?
    ensures var (t, q) := UnlinkStep(s, p, fails); Sound(t, q, d)
  {
    if !fails { UnlinkSound(s, p.name, p.bytes, p, Idle, d); }
  }

  lemma CreditSound(max: int, s: State, p: Phase, d: Debt)
    requires Sound(s, p, d) && p.Crediting?
    ensures var (t, q) := Hold(max, s, p, Credit); Sound(t, q, d)
  {
    hide IsBlob, Blobs;
  }

  lemma CountInSound(max: int, s: State, p: Phase, now: int, d: Debt)
    requires Sound(s, p, d) && p.Counting?
    ensures var (t, q) := Hold(max, s, p, CountIn(now)); Sound(t, q, d)
  {
    hide IsBlob, Blobs;
  }

  lemma DebitSound(max: int, s: State, p: Phase, d: Debt)
    requires Sound(s, p, d) && p.Debiting?
    ensures var (t, q) := Hold(max, s, p, Debit); Sound(t, q, d)
  {
    hide IsBlob, Blobs, Candidates;
  }

  lemma AbsentIsNotLive(s: State, n: Name)
    requires n !in s.dir
    ensures n !in Live(s)
  {
  }

  lemma ForgetSound(max: int, s: State, p: Phase, d: Debt)
    requires Sound(s, p, d) && p.Forgetting?
    ensures var (t, q) := Hold(max, s, p, Forget); Sound(t, q, d)
  {
    hide IsBlob, Candidates, Blobs, Total;
    AbsentIsNotLive(s, p.v.name);
  }

  lemma BeginStepSound(max: int, s: State, a: Action, d: Debt)
    requires Sound(s, Idle, d) && a.PutBegin? && IsBlob(a.name)
    ensures var (t, q) := BeginStep(max, s, a); Sound(t, q, d)
  {
    hide IsBlob, Blobs;
  }

  lemma ListSound(max: int, sys: Sys, a: Action, d: Debt)
    requires Sound(sys.s, sys.phase, d) && Enabled(sys, a) && a.List?
    ensures var (t, q) := Hold(max, sys.s, sys.phase, a); Sound(t, q, d)
  {
    hide IsBlob, Blobs, Candidates, Removable, Stamp;
  }

  lemma RemoveBeginSound(max: int, s: State, a: Action, d: Debt)
    requires Sound(s, Idle, d) && a.RemoveBegin? && IsBlob(a.name)
    ensures var (t, q) := Hold(max, s, Idle, a); Sound(t, q, d)
  {
    hide IsBlob, Blobs;
  }

  lemma ReadingSound(sys: Sys, a: Action, d: Debt)
    requires Sound(sys.s, sys.phase, d)
    ensures Sound(Read(sys, a).s, Read(sys, a).phase, d)
  {
    hide IsBlob, Blobs, Knows;
  }

  /** Whatever anyone does next, a replaced file is all that is added to the miscount. */
  lemma {:induction false} StepSound(max: int, sys: Sys, a: Action, d: Debt)
    requires Sound(sys.s, sys.phase, d) && Enabled(sys, a)
    ensures Sound(Next(max, sys, a).s, Next(max, sys, a).phase, Plus(d, ReplacedAt(sys, a)))
  {
    hide Sound, IsBlob, BeginStep, EvictStep, WriteStep, RenameStep, UnlinkStep, Read;
    match a
    case PutBegin(_, _, _, _) => BeginStepSound(max, sys.s, a, d);
    case List(_, _, _) => ListSound(max, sys, a, d);
    case EvictNext(fails) => EvictStepSound(max, sys.s, sys.phase, fails, d);
    case WriteTmp(_, _, _, _, _) => WriteStepSound(sys.s, sys.phase, a, d);
    case RenameTmp(_, _, _) => RenameStepSound(sys.s, sys.phase, a, d);
    case Credit => CreditSound(max, sys.s, sys.phase, d);
    case CountIn(now) => CountInSound(max, sys.s, sys.phase, now, d);
    case RemoveBegin(_, _) => RemoveBeginSound(max, sys.s, a, d);
    case Unlink(fails) => UnlinkStepSound(sys.s, sys.phase, fails, d);
    case Debit => DebitSound(max, sys.s, sys.phase, d);
    case Forget => ForgetSound(max, sys.s, sys.phase, d);
    case StatBlob(_, _, _) => ReadingSound(sys, a, d);
    case OpenBlob(_, _) => ReadingSound(sys, a, d);
    case TouchBlob(_, _) => ReadingSound(sys, a, d);
  }

  lemma {:induction false} RunSound(max: int, sys: Sys, acts: seq<Action>)
    requires Sound(sys.s, sys.phase, NO_DEBT) && Runs(max, sys, acts, AnyStep)
    ensures Sound(Run(max, sys, acts).s, Run(max, sys, acts).phase, ReplacedBy(max, sys, acts))
  {
    hide Sound, Next, Enabled, ReplacedAt, Plus;
    if acts != [] {
      RunSound(max, sys, Init(acts));
      StepSound(max, Run(max, sys, Init(acts)), Last(acts), ReplacedBy(max, sys, Init(acts)));
    }
  }

  lemma IdleOwes(s: State, d: Debt)
    ensures Sound(s, Idle, d) <==> Owes(s, d)
  {
  }

  /**
   However calls, readers and failures interleave, whenever nobody holds the lock the counters
   exceed the directory by exactly the files that renames have replaced, and describe it exactly
   when no rename has replaced any.
   */
  lemma {:induction false} AccountingUnderInterleaving(max: int, s: State, readers: map<nat, Reader>, acts: seq<Action>)
    requires Accounts(s) && Runs(max, Sys(s, Idle, readers), acts, AnyStep)
    ensures var end, replaced := Run(max, Sys(s, Idle, readers), acts), ReplacedBy(max, Sys(s, Idle, readers), acts);
            end.phase.Idle? ==> Owes(end.s, replaced) && (Accounts(end.s) <==> replaced.files == 0)
  {
    hide Sound, Owes, Accounts;
    var sys := Sys(s, Idle, readers);
    NothingOwed(s);
    IdleOwes(s, NO_DEBT);
    RunSound(max, sys, acts);
    var end, replaced := Run(max, sys, acts), ReplacedBy(max, sys, acts);
    if end.phase.Idle? {
      IdleOwes(end.s, replaced);
      OwingShows(end.s, replaced);
    }
  }

  // ---------- the limit ----------

  /** The room the lock holder has secured for what it is about to add. */
  predicate WithinLimit(max: int, s: State, p: Phase) {
    && s.used <= max
    && WellFormed(p)
    && match p
       case Writing(_, size) => s.used + size <= max
       case Renaming(_, data) => s.used + |data| <= max
       case Crediting(_, bytes) => s.used + bytes <= max
       case _ => true
  }

  /** Only blobs are stored, and removing a file is part of an eviction or the end of a `Remove`. */
  predicate WellFormed(p: Phase) {
    match p
    case Listing(name, _, _) => IsBlob(name)
    case Evicting(name, _, _, _) => IsBlob(name)
    case Writing(name, _) => IsBlob(name)
    case Renaming(name, _) => IsBlob(name)
    case Debiting(_, next) => next.Idle? || (next.Evicting? && IsBlob(next.name))
    case Forgetting(_, next) => next.Idle? || (next.Evicting? && IsBlob(next.name))
    case _ => true
  }

  /** No reader passed to `Put` yields more than the declared size. */
  predicate Modest(sys: Sys, a: Action) {
    a.WriteTmp? && sys.phase.Writing? ==> |a.data| <= sys.phase.size
  }

  lemma StepWithinLimit(max: int, sys: Sys, a: Action)
    requires WithinLimit(max, sys.s, sys.phase) && Enabled(sys, a) && Modest(sys, a)
    ensures WithinLimit(max, Next(max, sys, a).s, Next(max, sys, a).phase)
  {
    hide IsBlob, ValidOrder, TmpName;
  }

  lemma {:induction false} RunWithinLimit(max: int, sys: Sys, acts: seq<Action>)
    requires WithinLimit(max, sys.s, sys.phase) && Runs(max, sys, acts, Modest)
    ensures WithinLimit(max, Run(max, sys, acts).s, Run(max, sys, acts).phase)
  {
    hide WithinLimit, Next, Enabled, Modest;
    if acts != [] {
      RunWithinLimit(max, sys, Init(acts));
      StepWithinLimit(max, Run(max, sys, Init(acts)), Last(acts));
    }
  }

  /**
   Started within the limit, the cache never reports more than the limit, not even in the middle
   of an operation. `acts` being arbitrary, this covers every moment of a run.
   */
  lemma StatsNeverExceedLimit(max: int, s: State, readers: map<nat, Reader>, acts: seq<Action>)
    requires s.used <= max && Runs(max, Sys(s, Idle, readers), acts, Modest)
    ensures Run(max, Sys(s, Idle, readers), acts).s.used <= max
  {
    RunWithinLimit(max, Sys(s, Idle, readers), acts);
  }

  // ---------- readers ----------

  ghost predicate Genuine(sys: Sys, content: Name -> Bytes) {
    && (forall n | n in sys.s.dir && IsBlob(n) :: sys.s.dir[n].data == content(n))
    && WellFormed(sys.phase)
    && (sys.phase.Renaming? ==> sys.phase.data == content(sys.phase.name))
    && (forall id | id in sys.readers :: Faithful(sys.readers[id], content))
  }

  ghost predicate Faithful(r: Reader, content: Name -> Bytes) {
    && IsBlob(r.name)
    && r.size == |content(r.name)|
    && (!r.Statted? ==> r.data == content(r.name))
  }

  lemma GenuineStep(max: int, sys: Sys, a: Action, content: Name -> Bytes)
    requires Genuine(sys, content) && Enabled(sys, a)
    requires a.WriteTmp? && !a.copyFails ==> a.data == content(sys.phase.name)
    ensures Genuine(Next(max, sys, a), content)
  {
    if a.WriteTmp? || a.RenameTmp? {
      NamesKeptApart("", sys.phase.name);
    }
  }

  /**
   When every completed `Put` of a digest delivers the same bytes, a `Get` interleaved with any
   evictions, removals and `Put`s returns these bytes together with their length.
   */
  lemma {:induction false} HitsAreGenuine(max: int, sys: Sys, acts: seq<Action>, content: Name -> Bytes)
    requires Genuine(sys, content)
    requires Runs(max, sys, acts, (b: Sys, a: Action) =>
               a.WriteTmp? && b.phase.Writing? && !a.copyFails ==> a.data == content(b.phase.name))
    ensures Genuine(Run(max, sys, acts), content)
  {
    if acts != [] {
      HitsAreGenuine(max, sys, Init(acts), content);
      GenuineStep(max, Run(max, sys, Init(acts)), Last(acts), content);
    }
  }

  // ---------- reported sizes ----------

  /** Everything stored under a digest has the length `len` gives, and readers know it. */
  ghost predicate Measured(sys: Sys, len: Name -> nat) {
    && (forall n | n in sys.s.dir && IsBlob(n) :: |sys.s.dir[n].data| == len(n))
    && WellFormed(sys.phase)
    && (sys.phase.Renaming? ==> |sys.phase.data| == len(sys.phase.name))
    && (forall id | id in sys.readers :: Sized(sys.readers[id], len))
  }

  predicate Sized(r: Reader, len: Name -> nat) {
    && IsBlob(r.name)
    && r.size == len(r.name)
    && (!r.Statted? ==> |r.data| == r.size)
  }

  lemma MeasuredStep(max: int, sys: Sys, a: Action, len: Name -> nat)
    requires Measured(sys, len) && Enabled(sys, a)
    requires a.WriteTmp? && !a.copyFails ==> |a.data| == len(sys.phase.name)
    ensures Measured(Next(max, sys, a), len)
  {
    if a.WriteTmp? || a.RenameTmp? {
      NamesKeptApart("", sys.phase.name);
    }
  }

  /**
   When all completed `Put`s of a digest deliver equally many bytes, whatever these are, every
   `Get` reports the length of the bytes it returns.
   */
  lemma {:induction false} SizesAreRight(max: int, sys: Sys, acts: seq<Action>, len: Name -> nat)
    requires Measured(sys, len)
    requires Runs(max, sys, acts, (b: Sys, a: Action) =>
               a.WriteTmp? && b.phase.Writing? && !a.copyFails ==> |a.data| == len(b.phase.name))
    ensures Measured(Run(max, sys, acts), len)
  {
    if acts != [] {
      SizesAreRight(max, sys, Init(acts), len);
      MeasuredStep(max, Run(max, sys, Init(acts)), Last(acts), len);
    }
  }

  const START := Sys(EMPTY, Idle, map[])

  /** Every completed `Put` delivers one of the contents of its digest, with its true size declared. */
  ghost predicate Delivers(contents: Name -> iset<Bytes>, sys: Sys, a: Action) {
    a.WriteTmp? && sys.phase.Writing? && !a.copyFails ==>
      a.data in contents(sys.phase.name) && |a.data| == sys.phase.size
  }

  ghost predicate Delivering(max: int, contents: Name -> iset<Bytes>, acts: seq<Action>) {
    Runs(max, START, acts, (sys: Sys, a: Action) => Delivers(contents, sys, a))
  }

  predicate RightSizes(readers: map<nat, Reader>) {
    forall id | id in readers && readers[id].Returned? :: readers[id].size == |readers[id].data|
  }

  lemma Extend(max: int, contents: Name -> iset<Bytes>, acts: seq<Action>, a: Action)
    requires Delivering(max, contents, acts)
    requires Enabled(Run(max, START, acts), a) && Delivers(contents, Run(max, START, acts), a)
    ensures Delivering(max, contents, acts + [a])
    ensures Run(max, START, acts + [a]) == Next(max, Run(max, START, acts), a)
  {
    hide Delivers, Enabled, Next;
    assert Init(acts + [a]) == acts && Last(acts + [a]) == a;
  }

  function Holding(name: Name, data: Bytes): State {
    State(map[name := File(data, 0)], |data|, 1, map[name := 0])
  }

  /** A `Put` into the empty cache. */
  lemma StoreRun(max: int, contents: Name -> iset<Bytes>, acts: seq<Action>, name: Name, data: Bytes)
    returns (more: seq<Action>)
    requires IsBlob(name) && |data| <= max && data in contents(name)
    requires Delivering(max, contents, acts)
    requires Run(max, START, acts).s == EMPTY && Run(max, START, acts).phase == Idle
    ensures Delivering(max, contents, more)
    ensures Run(max, START, more) == Sys(Holding(name, data), Idle, Run(max, START, acts).readers)
  {
    hide IsBlob, Delivering, Run;
    var tmp := TmpName(name);
    NamesKeptApart("", name);
    more := acts;
    Extend(max, contents, more, PutBegin(name, |data|, false, 0));
    more := more + [PutBegin(name, |data|, false, 0)];
    Extend(max, contents, more, WriteTmp(false, false, false, data, 0));
    more := more + [WriteTmp(false, false, false, data, 0)];
    Extend(max, contents, more, RenameTmp(false, false, 0));
    more := more + [RenameTmp(false, false, 0)];
    assert map[tmp := File(data, 0)] - {tmp} == map[];
    Extend(max, contents, more, Credit);
    more := more + [Credit];
    Extend(max, contents, more, CountIn(0));
    more := more + [CountIn(0)];
  }

  /** A `Remove` of the only blob. */
  lemma EraseRun(max: int, contents: Name -> iset<Bytes>, acts: seq<Action>, name: Name, data: Bytes)
    returns (more: seq<Action>)
    requires IsBlob(name) && Delivering(max, contents, acts)
    requires Run(max, START, acts).s == Holding(name, data) && Run(max, START, acts).phase == Idle
    ensures Delivering(max, contents, more)
    ensures Run(max, START, more) == Sys(EMPTY, Idle, Run(max, START, acts).readers)
  {
    hide IsBlob, Delivering, Run;
    more := acts;
    Extend(max, contents, more, RemoveBegin(name, false));
    more := more + [RemoveBegin(name, false)];
    Extend(max, contents, more, Unlink(false));
    more := more + [Unlink(false)];
    assert map[name := File(data, 0)] - {name} == map[];
    Extend(max, contents, more, Debit);
    more := more + [Debit];
    Extend(max, contents, more, Forget);
    more := more + [Forget];
    assert map[name := 0] - {name} == map[];
  }

  /**
   Any two contents of a digest can come together in one `Get`: its `Stat` sees `a`, the blob is
   removed and stored again as `b`, and its `Open` finds `b`.
   */
  lemma ReportedSizeCanBeStale(max: int, contents: Name -> iset<Bytes>, name: Name, a: Bytes, b: Bytes)
    returns (acts: seq<Action>)
    requires IsBlob(name) && a in contents(name) && b in contents(name) && |a| <= max && |b| <= max
    ensures Delivering(max, contents, acts)
    ensures Run(max, START, acts).readers == map[0 := Returned(name, |a|, b)]
  {
    hide IsBlob, Delivering, Run;
    acts := [];
    NothingRun(max, contents);
    acts := StoreRun(max, contents, acts, name, a);
    Extend(max, contents, acts, StatBlob(0, name, false));
    acts := acts + [StatBlob(0, name, false)];
    acts := EraseRun(max, contents, acts, name, a);
    acts := StoreRun(max, contents, acts, name, b);
    Extend(max, contents, acts, OpenBlob(0, false));
    acts := acts + [OpenBlob(0, false)];
    Extend(max, contents, acts, TouchBlob(0, 1));
    acts := acts + [TouchBlob(0, 1)];
  }

  lemma NothingRun(max: int, contents: Name -> iset<Bytes>)
    ensures Delivering(max, contents, []) && Run(max, START, []) == START
  {
  }

  ghost predicate LengthsAgree(contents: Name -> iset<Bytes>) {
    forall n, a, b | IsBlob(n) && a in contents(n) && b in contents(n) :: |a| == |b|
  }

  /**
   Reported sizes are right in every interleaving exactly when no digest has contents of
   different lengths.
   */
  lemma SizesRightIffLengthsAgree(max: int, contents: Name -> iset<Bytes>)
    requires forall n, a | a in contents(n) :: |a| <= max
    ensures (forall acts | Delivering(max, contents, acts) :: RightSizes(Run(max, START, acts).readers))
            <==> LengthsAgree(contents)
  {
    hide IsBlob, Delivering, Run;
    if LengthsAgree(contents) {
      forall acts | Delivering(max, contents, acts)
        ensures RightSizes(Run(max, START, acts).readers)
      {
        AgreeingSizes(max, contents, acts);
      }
    } else {
      var n, a, b :| IsBlob(n) && a in contents(n) && b in contents(n) && |a| != |b|;
      var acts := ReportedSizeCanBeStale(max, contents, n, a, b);
      assert Run(max, START, acts).readers[0].size != |Run(max, START, acts).readers[0].data|;
    }
  }

  ghost function LengthOf(contents: Name -> iset<Bytes>, n: Name): nat {
    if a :| a in contents(n) then |a| else 0
  }

  lemma AgreeingStep(max: int, contents: Name -> iset<Bytes>, sys: Sys, a: Action)
    requires LengthsAgree(contents) && Measured(sys, n => LengthOf(contents, n))
    requires Enabled(sys, a) && Delivers(contents, sys, a)
    ensures Measured(Next(max, sys, a), n => LengthOf(contents, n))
  {
    hide IsBlob, Next;
    MeasuredStep(max, sys, a, n => LengthOf(contents, n));
  }

  lemma {:induction false} AgreeingSizes(max: int, contents: Name -> iset<Bytes>, acts: seq<Action>)
    requires LengthsAgree(contents) && Delivering(max, contents, acts)
    ensures Measured(Run(max, START, acts), n => LengthOf(contents, n))
    ensures RightSizes(Run(max, START, acts).readers)
  {
    hide IsBlob, Next, Enabled;
    if acts != [] {
      AgreeingSizes(max, contents, Init(acts));
      AgreeingStep(max, contents, Run(max, START, Init(acts)), Last(acts));
    }
  }

  // ---------- the atomic operations are uninterrupted runs of steps ----------

  ghost predicate Leads(max: int, sys: Sys, acts: seq<Action>, end: Sys) {
    Runs(max, sys, acts, AnyStep) && Run(max, sys, acts) == end
  }

  lemma OneStep(max: int, sys: Sys, a: Action)
    requires Enabled(sys, a)
    ensures Leads(max, sys, [a], Next(max, sys, a))
  {
    assert Init([a]) == [] && Last([a]) == a;
    assert AnyStep(sys, a) && Runs(max, sys, [], AnyStep);
  }

  lemma {:induction false} LeadsConcat(max: int, sys: Sys, a: seq<Action>, mid: Sys, b: seq<Action>, end: Sys)
    requires Leads(max, sys, a, mid) && Leads(max, mid, b, end)
    ensures Leads(max, sys, a + b, end)
    decreases |b|
  {
    hide Enabled, Next;
    if b == [] {
      assert a + b == a;
    } else {
      LeadsConcat(max, sys, a, mid, Init(b), Run(max, mid, Init(b)));
      assert Init(a + b) == a + Init(b);
    }
  }

  function EvictActs(order: seq<Victim>, needed: int, stuck: set<Name>): seq<Action>
    decreases |order|
  {
    if order == [] || needed <= 0 then [EvictNext(false)]
    else if order[0].name in stuck then [EvictNext(true)] + EvictActs(order[1..], needed, stuck)
    else [EvictNext(false)] + [Debit] + [Forget] + EvictActs(order[1..], needed - order[0].size, stuck)
  }

  lemma EvictOne(max: int, s: State, readers: map<nat, Reader>, name: Name, size: int, order: seq<Victim>, needed: int)
    requires order != [] && needed > 0
    ensures Leads(max, Sys(s, Evicting(name, size, needed, order), readers), [EvictNext(false)] + [Debit] + [Forget],
                  Sys(Drop(s, order[0]), Evicting(name, size, needed - order[0].size, order[1..]), readers))
  {
    var sys0 := Sys(s, Evicting(name, size, needed, order), readers);
    var sys1, sys2 := Next(max, sys0, EvictNext(false)), Next(max, Next(max, sys0, EvictNext(false)), Debit);
    OneStep(max, sys0, EvictNext(false));
    OneStep(max, sys1, Debit);
    OneStep(max, sys2, Forget);
    LeadsConcat(max, sys0, [EvictNext(false)], sys1, [Debit], sys2);
    LeadsConcat(max, sys0, [EvictNext(false)] + [Debit], sys2, [Forget], Next(max, sys2, Forget));
  }

  /** The eviction loop, step by step, does what `Evict` does at once. */
  lemma {:induction false} EvictIsARun(max: int, s: State, readers: map<nat, Reader>, name: Name, size: int,
                                       order: seq<Victim>, needed: int, stuck: set<Name>)
    ensures var t := Evict(s, order, needed, stuck);
            Leads(max, Sys(s, Evicting(name, size, needed, order), readers), EvictActs(order, needed, stuck),
                  Sys(t, if t.used + size > max then Idle else Writing(name, size), readers))
    decreases |order|
  {
    hide Leads;
    var sys, t := Sys(s, Evicting(name, size, needed, order), readers), Evict(s, order, needed, stuck);
    var end := Sys(t, if t.used + size > max then Idle else Writing(name, size), readers);
    if order == [] || needed <= 0 {
      OneStep(max, sys, EvictNext(false));
    } else if order[0].name in stuck {
      OneStep(max, sys, EvictNext(true));
      EvictIsARun(max, s, readers, name, size, order[1..], needed, stuck);
      LeadsConcat(max, sys, [EvictNext(true)], Next(max, sys, EvictNext(true)),
                  EvictActs(order[1..], needed, stuck), end);
    } else {
      var mid := Sys(Drop(s, order[0]), Evicting(name, size, needed - order[0].size, order[1..]), readers);
      EvictOne(max, s, readers, name, size, order, needed);
      EvictIsARun(max, Drop(s, order[0]), readers, name, size, order[1..], needed - order[0].size, stuck);
      LeadsConcat(max, sys, [EvictNext(false)] + [Debit] + [Forget], mid,
                  EvictActs(order[1..], needed - order[0].size, stuck), end);
    }
  }

  lemma WriteIsARun(max: int, s: State, readers: map<nat, Reader>, name: Name, size: int, data: Bytes,
                    io: PutIO, now: int) returns (acts: seq<Action>)
    ensures Leads(max, Sys(s, Writing(name, size), readers), acts,
                  Sys(Write(s, name, data, io, now).0, Idle, readers))
  {
    var sys0 := Sys(s, Writing(name, size), readers);
    var a := WriteTmp(io.createFails, io.copyFails, io.cleanupFails,
                      if io.copyFails then io.partial else data, now);
    var sys1, tmp := Next(max, sys0, a), TmpName(name);
    OneStep(max, sys0, a);
    acts := [a];
    assert s.dir[tmp := File(io.partial, now)] - {tmp} == s.dir - {tmp};
    assert s.dir[tmp := File(data, now)] - {tmp} == s.dir - {tmp};
    if !io.createFails && !io.copyFails {
      var r := RenameTmp(io.renameFails, io.cleanupFails, now);
      var sys2 := Next(max, sys1, r);
      OneStep(max, sys1, r);
      LeadsConcat(max, sys0, acts, sys1, [r], sys2);
      acts := acts + [r];
      if !io.renameFails {
        var sys3 := Next(max, sys2, Credit);
        OneStep(max, sys2, Credit);
        OneStep(max, sys3, CountIn(now));
        LeadsConcat(max, sys0, acts, sys2, [Credit], sys3);
        LeadsConcat(max, sys0, acts + [Credit], sys3, [CountIn(now)], Next(max, sys3, CountIn(now)));
        acts := acts + [Credit] + [CountIn(now)];
      }
    }
  }

  /** Making room, from the moment `Put` has found no file. */
  lemma RoomIsARun(max: int, s: State, readers: map<nat, Reader>, name: Name, size: int, io: PutIO,
                   order: seq<Victim>) returns (acts: seq<Action>)
    requires s.used + size > max && (!io.listFails ==> ValidOrder(s, io.hidden, order))
    ensures var (t, e) := MakeRoom(max, s, size, io, order);
            Leads(max, Sys(s, Listing(name, size, s.used + size - max), readers), acts,
                  Sys(t, if e == None then Writing(name, size) else Idle, readers))
  {
    hide Leads, ValidOrder;
    var needed := s.used + size - max;
    var sys0 := Sys(s, Listing(name, size, needed), readers);
    var list := List(io.listFails, io.hidden, order);
    OneStep(max, sys0, list);
    acts := [list];
    if !io.listFails && order != [] {
      var t := Evict(s, order, needed, io.stuck);
      EvictIsARun(max, s, readers, name, size, order, needed, io.stuck);
      LeadsConcat(max, sys0, acts, Sys(s, Evicting(name, size, needed, order), readers),
                  EvictActs(order, needed, io.stuck),
                  Sys(t, if t.used + size > max then Idle else Writing(name, size), readers));
      acts := acts + EvictActs(order, needed, io.stuck);
    }
  }

  /** `Put` as one step is what its file operations and counter updates amount to. */
  lemma PutIsARun(max: int, s: State, readers: map<nat, Reader>, name: Name, data: Bytes, size: int, io: PutIO,
                  order: seq<Victim>, now: int) returns (acts: seq<Action>)
    requires IsBlob(name) && OrderOk(max, s, name, size, io, order)
    ensures Leads(max, Sys(s, Idle, readers), acts,
                  Sys(Put(max, s, name, data, size, io, order, now).0, Idle, readers))
  {
    hide Leads, ValidOrder, MakeRoom, Write, IsBlob;
    var sys0 := Sys(s, Idle, readers);
    var begin := PutBegin(name, size, io.statFails, now);
    OneStep(max, sys0, begin);
    acts := [begin];
    if !Finds(s, name, io) {
      var (t, e) := MakeRoom(max, s, size, io, order);
      var roomEnd := Sys(t, if e == None then Writing(name, size) else Idle, readers);
      if s.used + size > max {
        var room := RoomIsARun(max, s, readers, name, size, io, order);
        LeadsConcat(max, sys0, acts, Sys(s, Listing(name, size, s.used + size - max), readers), room, roomEnd);
        acts := acts + room;
      } else {
        NoRoomNeeded(max, s, size, io, order);
      }
      assert Leads(max, sys0, acts, roomEnd);
      if e == None {
        var write := WriteIsARun(max, t, readers, name, size, data, io, now);
        LeadsConcat(max, sys0, acts, roomEnd, write, Sys(Write(t, name, data, io, now).0, Idle, readers));
        acts := acts + write;
      }
    }
  }

  lemma NoRoomNeeded(max: int, s: State, size: int, io: PutIO, order: seq<Victim>)
    requires s.used + size <= max
    ensures MakeRoom(max, s, size, io, order) == (s, None)
  {
  }

  lemma RemoveIsARun(max: int, s: State, readers: map<nat, Reader>, name: Name, io: RemoveIO)
    returns (acts: seq<Action>)
    requires IsBlob(name)
    ensures Leads(max, Sys(s, Idle, readers), acts, Sys(Remove(s, name, io).0, Idle, readers))
  {
    hide IsBlob;
    var sys0, begin := Sys(s, Idle, readers), RemoveBegin(name, io.statFails);
    var sys1 := Next(max, sys0, begin);
    OneStep(max, sys0, begin);
    acts := [begin];
    if name in s.dir && !io.statFails {
      var sys2 := Next(max, sys1, Unlink(io.removeFails));
      OneStep(max, sys1, Unlink(io.removeFails));
      LeadsConcat(max, sys0, acts, sys1, [Unlink(io.removeFails)], sys2);
      acts := acts + [Unlink(io.removeFails)];
      if !io.removeFails {
        var sys3 := Next(max, sys2, Debit);
        OneStep(max, sys2, Debit);
        OneStep(max, sys3, Forget);
        LeadsConcat(max, sys0, acts, sys2, [Debit], sys3);
        LeadsConcat(max, sys0, acts + [Debit], sys3, [Forget], Next(max, sys3, Forget));
        acts := acts + [Debit] + [Forget];
      }
    }
  }

  /** `Get` as one step is its `Stat`, `Open` and touch without anything in between. */
  lemma GetIsARun(max: int, s: State, readers: map<nat, Reader>, id: nat, name: Name, io: GetIO, now: int)
    returns (acts: seq<Action>)
    requires IsBlob(name) && id !in readers
    ensures var (t, r) := Get(s, name, io, now);
            Leads(max, Sys(s, Idle, readers), acts,
                  Sys(t, Idle, if r.Hit? then readers[id := Returned(name, r.size, r.data)] else readers))
  {
    hide IsBlob;
    var sys0, stat := Sys(s, Idle, readers), StatBlob(id, name, io.statFails);
    var sys1 := Next(max, sys0, stat);
    OneStep(max, sys0, stat);
    acts := [stat];
    if name in s.dir && !io.statFails {
      var open := OpenBlob(id, io.openFails);
      var sys2 := Next(max, sys1, open);
      OneStep(max, sys1, open);
      LeadsConcat(max, sys0, acts, sys1, [open], sys2);
      acts := acts + [open];
      if io.openFails {
        assert sys2.readers == readers;
      } else {
        OneStep(max, sys2, TouchBlob(id, now));
        LeadsConcat(max, sys0, acts, sys2, [TouchBlob(id, now)], Next(max, sys2, TouchBlob(id, now)));
        acts := acts + [TouchBlob(id, now)];
      }
    }
  }
}
