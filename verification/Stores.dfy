/** Files as a whole: rows in one store, bytes in another, and no transaction over
    both. Every transaction is one step and every call on the blob store is
    another; anything, a crash included, may come between two steps. */
module Stores {
  import opened Tree
  import Keys
  import Paths
  import Restores

  datatype BatchId = BatchId(owner: string, name: string)

  /** One pass of Collect, by how far it has got. `since` is when it read the file
      keys, which is the first thing it does. */
  datatype Sweep =
    | ReadFiles(since: int, referenced: set<string>)
    | ReadBoth(since: int, referenced: set<string>)
    | Listing(since: int, cutoff: int, referenced: set<string>, orphans: set<string>, derived: set<string>)
    | Deleting(referenced: set<string>, derived: set<string>)

  /** Something under way outside any transaction. */
  datatype Proc =
    | Writing(stored: map<string, int>)   // blobs stored and when; their rows wait
    | Dropping(keys: set<string>)         // rows gone; the bytes, and what was derived from them, to go
    | Sweeping(sweep: Sweep)

  datatype World = World(
    now: int,
    files: Rows,
    trash: map<BatchId, map<string, Row>>,  // deletions that have an owner
    lost: map<string, set<string>>,         // the sweep's: blobs nobody could account for
    blobs: map<string, int>,                // what a listing shows, and when it was last written
    minted: set<string>,                    // every key ever chosen for a write
    uploads: set<string>,                   // begun and not yet published
    procs: map<nat, Proc>)

  /** The sweep's grace, how long a sweep takes from reading the file keys to
      computing its cutoff, how long a write takes from its blob to its row, and
      whether restores stay clear of a sweep's two reads of the database. */
  datatype Timing = Timing(grace: nat, window: nat, deadline: nat, apart: bool)

  function FileKeys(files: Rows): set<string> {
    set l | l in files && files[l].File? :: files[l].key
  }

  function KeysOf(tree: map<string, Row>): set<string> {
    set p | p in tree && tree[p].File? :: tree[p].key
  }

  function TrashKeys(w: World): set<string> {
    (set id, p | id in w.trash && p in w.trash[id] && w.trash[id][p].File? :: w.trash[id][p].key)
    + (set b, k | b in w.lost && k in w.lost[b] :: k)
  }

  datatype Action =
    | Tick(passed: nat)
    | Store(pid: nat, key: string)
    | BeginUpload(key: string)
    | AbortUpload(key: string)
    | Publish(pid: nat, key: string, mtime: int)
    | CommitWrite(pid: nat, l: Loc, file: Row)
    | CommitCopy(pid: nat, owner: string, to: string, plan: seq<Planned>)
    | Refused(pid: nat)
    | MakeDir(l: Loc)
    | MoveTo(owner: string, from: string, to: string)
    | Remove(l: Loc, batch: string)
    | RestoreBatch(id: BatchId)
    | Destroy(pid: nat, id: BatchId)
    | DestroyLost(pid: nat, batch: string)
    | DeleteObject(pid: nat, key: string)
    | Derive(parent: string, name: string)
    | Crash(pids: set<nat>)
    | SweepFiles(pid: nat)
    | SweepTrash(pid: nat)
    | SweepCutoff(pid: nat)
    | SweepSees(pid: nat, key: string)
    | SweepTrashes(pid: nat, batch: string)
    | SweepDeletes(pid: nat, key: string)

  predicate InPhase(w: World, pid: nat, phase: Sweep -> bool) {
    pid in w.procs && w.procs[pid].Sweeping? && phase(w.procs[pid].sweep)
  }

  /** The keys a copy's rows name, each once and no others than the ones it stored. */
  ghost predicate NamesStored(plan: seq<Planned>, stored: map<string, int>) {
    && (forall i :: 0 <= i < |plan| && plan[i].row.File? ==> plan[i].row.key in stored)
    && (forall i, j :: 0 <= i < j < |plan| && plan[i].row.File? && plan[j].row.File? ==>
        plan[i].row.key != plan[j].row.key)
  }

  /** What the code can do in a world. */
  ghost predicate Enabled(t: Timing, w: World, a: Action) {
    match a
    case Tick(_) => true
    case Store(pid, key) => pid in w.procs ==> w.procs[pid].Writing?
    case BeginUpload(key) => true
    case AbortUpload(key) => true
    case Publish(pid, key, mtime) => pid !in w.procs && key in w.uploads && mtime <= w.now
    case CommitWrite(pid, l, file) =>
      pid in w.procs && w.procs[pid].Writing? && file.File? && w.procs[pid].stored.Keys == {file.key}
      && Replace(w.files, l, file).Ok?
    case CommitCopy(pid, owner, to, plan) =>
      pid in w.procs && w.procs[pid].Writing? && NamesStored(plan, w.procs[pid].stored)
      && CommitCopies(w.files, owner, to, plan).Ok?
    case Refused(pid) => pid in w.procs && w.procs[pid].Writing?
    case MakeDir(l) => Mkdir(w.files, l).Ok?
    case MoveTo(owner, from, to) => Move(w.files, owner, from, to).Ok?
    case Remove(l, batch) => RemoveTree(w.files, l).Ok?
    case RestoreBatch(id) => id in w.trash && Restore(w.files, id.owner, w.trash[id]).Ok?
    case Destroy(pid, id) => pid !in w.procs && id in w.trash
    case DestroyLost(pid, batch) => pid !in w.procs && batch in w.lost
    case DeleteObject(pid, key) =>
      pid in w.procs && w.procs[pid].Dropping?
      && (key in w.procs[pid].keys || exists k :: k in w.procs[pid].keys && Keys.DerivedUnder(k) <= key)
    case Derive(parent, name) => '/' !in name
    case Crash(_) => true
    case SweepFiles(pid) => pid !in w.procs
    case SweepTrash(pid) => InPhase(w, pid, (s: Sweep) => s.ReadFiles?)
    case SweepCutoff(pid) => InPhase(w, pid, (s: Sweep) => s.ReadBoth?)
    case SweepSees(pid, key) =>
      InPhase(w, pid, (s: Sweep) => s.Listing?) && key in w.blobs
      && Listed(w.procs[pid].sweep, key, w.blobs[key])
    case SweepTrashes(pid, batch) => InPhase(w, pid, (s: Sweep) => s.Listing?)
    case SweepDeletes(pid, key) =>
      InPhase(w, pid, (s: Sweep) => s.Deleting?) && key in w.procs[pid].sweep.derived
  }

  /** What the sweep looks at further: old enough, not a backup, and only when the
      index names anything at all. */
  predicate Listed(s: Sweep, key: string, mtime: int)
    requires s.Listing?
  {
    !(Keys.BACKUP_PREFIX <= key) && s.referenced != {} && mtime <= s.cutoff
  }

  /** And what becomes of it. */
  function Judged(s: Sweep, key: string): Sweep
    requires s.Listing?
  {
    var of := Keys.ParentOf(key);
    if of.derived && of.parent == "" then s
    else if of.derived then s.(derived := s.derived + {key})
    else if key in s.referenced then s
    else s.(orphans := s.orphans + {key})
  }

  function Finish(procs: map<nat, Proc>, pid: nat, leftovers: set<string>): map<nat, Proc> {
    if leftovers == {} then procs - {pid} else procs[pid := Dropping(leftovers)]
  }

  ghost function Apply(t: Timing, w: World, a: Action): World
    requires Enabled(t, w, a)
  {
    match a
    case Tick(passed) => w.(now := w.now + passed)
    case Store(pid, key) =>
      var before := if pid in w.procs then w.procs[pid].stored else map[];
      w.(minted := w.minted + {key}, blobs := w.blobs[key := w.now],
         procs := w.procs[pid := Writing(before[key := w.now])])
    case BeginUpload(key) => w.(minted := w.minted + {key}, uploads := w.uploads + {key})
    case AbortUpload(key) => w.(uploads := w.uploads - {key})
    case Publish(pid, key, mtime) =>
      w.(uploads := w.uploads - {key}, blobs := w.blobs[key := mtime],
         procs := w.procs[pid := Writing(map[key := mtime])])
    case CommitWrite(pid, l, file) =>
      var r := Replace(w.files, l, file).value;
      w.(files := r.rows, procs := Finish(w.procs, pid, if r.superseded == "" then {} else {r.superseded}))
    case CommitCopy(pid, owner, to, plan) =>
      var c := CommitCopies(w.files, owner, to, plan).value;
      w.(files := c.rows, procs := Finish(w.procs, pid, KeysOf(c.replaced)))
    case Refused(pid) => w.(procs := w.procs[pid := Dropping(w.procs[pid].stored.Keys)])
    case MakeDir(l) => w.(files := Mkdir(w.files, l).value)
    case MoveTo(owner, from, to) => w.(files := Move(w.files, owner, from, to).value)
    case Remove(l, batch) =>
      w.(files := Without(w.files, l.owner, l.path),
         trash := w.trash[BatchId(l.owner, batch) := RemoveTree(w.files, l).value])
    case RestoreBatch(id) =>
      w.(files := Restore(w.files, id.owner, w.trash[id]).value.rows, trash := w.trash - {id})
    case Destroy(pid, id) => w.(trash := w.trash - {id}, procs := w.procs[pid := Dropping(KeysOf(w.trash[id]))])
    case DestroyLost(pid, batch) => w.(lost := w.lost - {batch}, procs := w.procs[pid := Dropping(w.lost[batch])])
    case DeleteObject(pid, key) => w.(blobs := w.blobs - {key})
    case Derive(parent, name) => w.(blobs := w.blobs[Keys.DerivedKey(parent, name) := w.now])
    case Crash(pids) => w.(procs := w.procs - pids)
    case SweepFiles(pid) => w.(procs := w.procs[pid := Sweeping(ReadFiles(w.now, FileKeys(w.files)))])
    case SweepTrash(pid) =>
      var s := w.procs[pid].sweep;
      w.(procs := w.procs[pid := Sweeping(ReadBoth(s.since, s.referenced + TrashKeys(w)))])
    case SweepCutoff(pid) =>
      var s := w.procs[pid].sweep;
      w.(procs := w.procs[pid := Sweeping(Listing(s.since, w.now - t.grace, s.referenced, {}, {}))])
    case SweepSees(pid, key) => w.(procs := w.procs[pid := Sweeping(Judged(w.procs[pid].sweep, key))])
    case SweepTrashes(pid, batch) =>
      var s := w.procs[pid].sweep;
      w.(lost := if s.orphans == {} then w.lost else w.lost[batch := s.orphans],
         procs := w.procs[pid := Sweeping(Deleting(s.referenced + s.orphans, s.derived))])
    case SweepDeletes(pid, key) => w.(blobs := w.blobs - {key})
  }

  /** What the store assumes of a run and no line of code enforces: names drawn at
      random are new, restores keep apart from a sweep's two reads when they are said
      to, a sweep's reads and a write's gap stay within their times. */
  ghost predicate Assumed(t: Timing, w: World, a: Action) {
    match a
    case Store(pid, key) => key !in w.minted && Keys.MintedShape(key)
    case BeginUpload(key) => key !in w.minted && Keys.MintedShape(key)
    case CommitWrite(pid, l, file) => InTime(t, w, pid)
    case CommitCopy(pid, owner, to, plan) => InTime(t, w, pid)
    case Remove(l, batch) => BatchId(l.owner, batch) !in w.trash
    case RestoreBatch(id) => t.apart ==> NoSweepBetweenReads(w)
    case SweepCutoff(pid) => InPhase(w, pid, (s: Sweep) => s.ReadBoth?) ==> w.now - w.procs[pid].sweep.since <= t.window
    case SweepTrashes(pid, batch) => batch !in w.lost
    case _ => true
  }

  ghost predicate InTime(t: Timing, w: World, pid: nat) {
    pid in w.procs && w.procs[pid].Writing? ==>
      forall k :: k in w.procs[pid].stored ==> w.now - w.procs[pid].stored[k] <= t.deadline
  }

  ghost predicate NoSweepBetweenReads(w: World) {
    forall p :: p in w.procs && w.procs[p].Sweeping? ==> !w.procs[p].sweep.ReadFiles?
  }

  // ----- Runs

  ghost predicate Legal(t: Timing, w: World, run: seq<Action>)
    decreases |run|
  {
    run == [] || (Enabled(t, w, run[0]) && Assumed(t, w, run[0]) && Legal(t, Apply(t, w, run[0]), run[1..]))
  }

  ghost function Play(t: Timing, w: World, run: seq<Action>): World
    requires Legal(t, w, run)
    decreases |run|
  {
    if run == [] then w else Play(t, Apply(t, w, run[0]), run[1..])
  }

  const EMPTY := World(0, map[], map[], map[], map[], {}, {}, map[])

  // ----- What has to hold

  /** Who names a key. */
  datatype Holder = AtRow(l: Loc) | AtTrash(id: BatchId, path: string) | InFlight(pid: nat, stored: string)

  ghost predicate Holds(w: World, h: Holder, key: string) {
    match h
    case AtRow(l) => l in w.files && w.files[l].File? && w.files[l].key == key
    case AtTrash(id, path) =>
      id in w.trash && path in w.trash[id] && w.trash[id][path].File? && w.trash[id][path].key == key
    case InFlight(pid, stored) =>
      stored == key && pid in w.procs && w.procs[pid].Writing? && key in w.procs[pid].stored
  }

  /** Every file row and every row of a deletion names a blob that is there. */
  ghost predicate Safe(w: World) {
    forall h, k :: Holds(w, h, k) && !h.InFlight? ==> k in w.blobs
  }

  /** A key some step will destroy, or will hand to one that does. */
  ghost predicate Condemned(w: World, key: string) {
    || (exists p :: Drops(w, p, key))
    || (exists b :: b in w.lost && key in w.lost[b])
    || (exists p :: FoundOrphan(w, p, key))
  }

  ghost predicate Drops(w: World, p: nat, key: string) {
    p in w.procs && w.procs[p].Dropping? && key in w.procs[p].keys
  }

  ghost predicate FoundOrphan(w: World, p: nat, key: string) {
    p in w.procs && w.procs[p].Sweeping? && w.procs[p].sweep.Listing? && key in w.procs[p].sweep.orphans
  }

  // ----- The invariant, by parts

  ghost predicate Unique(w: World) {
    forall h1, h2, k :: Holds(w, h1, k) && Holds(w, h2, k) ==> h1 == h2
  }

  ghost predicate Chosen(w: World) {
    && (forall h, k :: Holds(w, h, k) ==> k in w.minted && k !in w.uploads)
    && (forall k :: Condemned(w, k) ==> k in w.minted && k !in w.uploads)
    && (forall k :: k in w.uploads ==> k in w.minted && k !in w.blobs)
    && (forall k :: k in w.minted ==> Keys.MintedShape(k))
    && (forall k :: k in w.blobs ==> k in w.minted || Keys.DERIVED_PREFIX <= k)
  }

  ghost predicate Late(t: Timing, w: World, h: Holder) {
    h.InFlight? && h.pid in w.procs && w.procs[h.pid].Writing? && h.stored in w.procs[h.pid].stored
    && w.procs[h.pid].stored[h.stored] + t.deadline < w.now
  }

  /** A held key's blob is there, unless its write is too late to commit. */
  ghost predicate Present(t: Timing, w: World) {
    && (forall h, k :: Holds(w, h, k) && !Late(t, w, h) ==> k in w.blobs)
    && (forall p, k :: Holds(w, InFlight(p, k), k) ==>
          w.procs[p].stored[k] <= w.now && (k in w.blobs ==> w.blobs[k] == w.procs[p].stored[k]))
  }

  /** What is condemned is held by nobody, or by a write too late to commit. */
  ghost predicate Spared(t: Timing, w: World) {
    forall h, k :: Holds(w, h, k) && Condemned(w, k) ==> Late(t, w, h)
  }

  /** What a sweep's reads promise: a key they missed was stored recently enough
      for its row to have come after them. */
  ghost predicate SweepKnows(t: Timing, w: World, s: Sweep) {
    match s
    case ReadFiles(since, referenced) =>
      since <= w.now
      && forall l, k :: Holds(w, AtRow(l), k) && k in w.blobs && k !in referenced ==> since <= w.blobs[k] + t.deadline
    case ReadBoth(since, referenced) => since <= w.now && Knows(t, w, since, referenced)
    case Listing(since, cutoff, referenced, _, derived) =>
      && since <= w.now && cutoff + t.grace <= since + t.window && Knows(t, w, since, referenced)
      && (forall k :: k in derived ==> Keys.DERIVED_PREFIX <= k)
    case Deleting(_, derived) => forall k :: k in derived ==> Keys.DERIVED_PREFIX <= k
  }

  ghost predicate Knows(t: Timing, w: World, since: int, referenced: set<string>) {
    forall h, k :: Holds(w, h, k) && !h.InFlight? && k in w.blobs && k !in referenced ==>
        since <= w.blobs[k] + t.deadline
  }

  ghost predicate SweepsKnow(t: Timing, w: World) {
    forall p :: p in w.procs && w.procs[p].Sweeping? ==> SweepKnows(t, w, w.procs[p].sweep)
  }

  /** The trees: the table is one, and so is every deletion. */
  ghost predicate TreesOk(w: World) {
    TreeOk(w.files)
    && forall id :: id in w.trash ==> exists root :: Restores.Deletion(w.trash[id], root)
  }

  /** Everything about keys. */
  ghost predicate Books(t: Timing, w: World) {
    Unique(w) && Chosen(w) && Present(t, w) && Spared(t, w) && SweepsKnow(t, w)
  }

  ghost predicate Inv(t: Timing, w: World) {
    Books(t, w) && TreesOk(w)
  }
}
