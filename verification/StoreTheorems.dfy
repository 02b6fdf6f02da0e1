/** What holds in every state any interleaving of operations, crashes and sweeps
    can reach -- and the two ways it stops holding. */
module StoreTheorems {
  import opened Tree
  import opened Stores
  import opened StoreSteps
  import Restores
  import Keys
  import Paths

  /** The grace is longer than a write's gap and a sweep's reads together, and no
      restore commits between those reads. */
  predicate Sound(t: Timing) {
    t.apart && t.deadline + t.window < t.grace
  }

  lemma StepKeeps(t: Timing, w: World, a: Action)
    requires Sound(t)
    requires Inv(t, w) && Enabled(t, w, a) && Assumed(t, w, a)
    ensures Inv(t, Apply(t, w, a))
  {
    hide Books, TreesOk, Assumed, Enabled, Apply;
    match a
    case Store(pid, key) => StoreKeeps(t, w, pid, key);
    case BeginUpload(key) => BeginUploadKeeps(t, w, key);
    case Publish(pid, key, mtime) => PublishKeeps(t, w, pid, key, mtime);
    case CommitWrite(pid, l, file) => CommitWriteKeeps(t, w, pid, l, file);
    case CommitCopy(pid, owner, to, plan) => CommitCopyKeeps(t, w, pid, owner, to, plan);
    case Refused(pid) => RefusedKeeps(t, w, pid);
    case MakeDir(l) => MakeDirKeeps(t, w, l);
    case MoveTo(owner, from, to) => MoveToKeeps(t, w, owner, from, to);
    case Remove(l, batch) => RemoveKeeps(t, w, l, batch);
    case RestoreBatch(id) => RestoreKeeps(t, w, id);
    case Destroy(pid, id) => DestroyKeeps(t, w, pid, id);
    case DestroyLost(pid, batch) => DestroyLostKeeps(t, w, pid, batch);
    case DeleteObject(pid, key) => DeleteObjectKeeps(t, w, pid, key);
    case Derive(parent, name) => DeriveKeeps(t, w, parent, name);
    case SweepFiles(pid) => SweepFilesKeeps(t, w, pid);
    case SweepTrash(pid) => SweepTrashKeeps(t, w, pid);
    case SweepCutoff(pid) => SweepCutoffKeeps(t, w, pid);
    case SweepSees(pid, key) => SweepSeesKeeps(t, w, pid, key);
    case SweepTrashes(pid, batch) => SweepTrashesKeeps(t, w, pid, batch);
    case SweepDeletes(pid, key) => SweepDeletesKeeps(t, w, pid, key);
    case _ => LettingGoKeeps(t, w, a);
  }

  lemma LettingGoKeeps(t: Timing, w: World, a: Action)
    requires Inv(t, w) && Enabled(t, w, a) && (a.Tick? || a.AbortUpload? || a.Crash?)
    ensures Inv(t, Apply(t, w, a))
  {
    hide Books, TreeOk;
    assert Fewer(w, Apply(t, w, a));
    FewerKeeps(t, w, Apply(t, w, a));
  }

  lemma {:induction false} RunKeeps(t: Timing, w: World, run: seq<Action>)
    requires Sound(t)
    requires Inv(t, w) && Legal(t, w, run)
    ensures Inv(t, Play(t, w, run))
    decreases |run|
  {
    hide Inv, Enabled, Assumed, Apply;
    if run == [] {
    } else {
      StepKeeps(t, w, run[0]);
      RunKeeps(t, Apply(t, w, run[0]), run[1..]);
    }
  }

  /** Nothing a sweep puts in the trash belongs to a file or to a deletion. */
  ghost predicate SweepsOnlyOrphans(w: World) {
    forall b, h, k :: b in w.lost && k in w.lost[b] && Holds(w, h, k) ==> h.InFlight?
  }

  /** Over every run: each file row and each row of a deletion names a blob that is
      there, no key is named twice, the sweep's trash holds nobody's blob, and the
      table and every deletion are trees. */
  lemma EveryRunIsSafe(t: Timing, run: seq<Action>)
    requires Sound(t) && Legal(t, EMPTY, run)
    ensures var w := Play(t, EMPTY, run);
            Safe(w) && Unique(w) && SweepsOnlyOrphans(w) && TreesOk(w)
  {
    assert Inv(t, EMPTY);
    hide Legal, Play;
    RunKeeps(t, EMPTY, run);
  }

  // ----- The bound is exact

  /** Some run from here loses a file: a row whose blob is gone. */
  ghost predicate CanLose(t: Timing, w: World) {
    exists run :: Legal(t, w, run) && !Safe(Play(t, w, run))
  }

  lemma LostNow(t: Timing, w: World)
    requires !Safe(w)
    ensures CanLose(t, w)
  {
    assert Legal(t, w, []) && Play(t, w, []) == w;
  }

  lemma LostAfter(t: Timing, w: World, a: Action, after: World)
    requires Enabled(t, w, a) && Assumed(t, w, a) && Apply(t, w, a) == after && CanLose(t, after)
    ensures CanLose(t, w)
  {
    hide Enabled, Assumed, Apply, Safe;
    var run :| Legal(t, after, run) && !Safe(Play(t, after, run));
    assert ([a] + run)[1..] == run;
    assert Legal(t, w, [a] + run);
  }

  const A := Loc("o", "a")
  const B := Loc("o", "b")

  function Plain(key: string): Row { File(key, 0, 0, "", "") }

  /** The rows of the run below before and after its second write. */
  function One(k0: string): Rows { map[A := Plain(k0)] }
  function Two(k0: string, k1: string): Rows { map[A := Plain(k0), B := Plain(k1)] }
  function Blobs(k0: string, k1: string): map<string, int> { map[k0 := 0, k1 := 0] }

  /** One sweep, found by its only process, once the blob of a row it did not see
      is listed: it takes the blob, and destroying what it took loses the file. */
  lemma SweepDestroys(t: Timing, w: World, k0: string, k1: string)
    requires k0 != k1 && w.blobs == Blobs(k0, k1) && w.files == Two(k0, k1)
    requires w.procs == map[2 := Sweeping(Deleting({k0, k1}, {}))] && w.lost == map["s" := {k1}]
    ensures CanLose(t, w)
  {
    hide Legal, Play, CanLose, Safe;
    var w4 := w.(lost := map[], procs := w.procs[3 := Dropping({k1})]);
    var w5 := w4.(blobs := map[k0 := 0]);
    BlobGone(w5, k0, k1);
    LostNow(t, w5);
    assert w4.blobs - {k1} == w5.blobs;
    LostAfter(t, w4, DeleteObject(3, k1), w5);
    assert w.lost - {"s"} == map[];
    LostAfter(t, w, DestroyLost(3, "s"), w4);
  }

  lemma BlobGone(w: World, k0: string, k1: string)
    requires w.files == Two(k0, k1) && k1 !in w.blobs
    ensures !Safe(w)
  {
    assert Holds(w, AtRow(B), k1);
  }

  /** From the sweep's second read on: the blob of a row committed after the first
      read looks like nobody's, and is old enough. */
  lemma SweepTakesIt(t: Timing, w: World, k0: string, k1: string, since: int)
    requires k0 != k1 && Keys.MintedShape(k1) && w.blobs == Blobs(k0, k1) && w.files == Two(k0, k1) && w.lost == map[]
    requires w.procs == map[2 := Sweeping(ReadBoth(since, {k0}))]
    requires w.now - since <= t.window && t.grace <= w.now
    ensures CanLose(t, w)
  {
    hide Legal, Play, CanLose, Safe, Keys.MintedShape, Enabled, Assumed, Apply;
    var s := Listing(since, w.now - t.grace, {k0}, {}, {});
    var w1 := w.(procs := map[2 := Sweeping(s)]);
    SweepFindsIt(t, w1, s, k0, k1);
    CutoffStep(t, w, since, {k0});
    LostAfter(t, w, SweepCutoff(2), w1);
  }

  lemma CutoffStep(t: Timing, w: World, since: int, referenced: set<string>)
    requires w.procs == map[2 := Sweeping(ReadBoth(since, referenced))] && w.now - since <= t.window
    ensures Enabled(t, w, SweepCutoff(2)) && Assumed(t, w, SweepCutoff(2))
    ensures Apply(t, w, SweepCutoff(2))
            == w.(procs := map[2 := Sweeping(Listing(since, w.now - t.grace, referenced, {}, {}))])
  {
  }

  lemma SweepFindsIt(t: Timing, w: World, s: Sweep, k0: string, k1: string)
    requires k0 != k1 && Keys.MintedShape(k1) && w.blobs == Blobs(k0, k1) && w.files == Two(k0, k1) && w.lost == map[]
    requires s.Listing? && s.referenced == {k0} && s.orphans == s.derived == {} && 0 <= s.cutoff
    requires w.procs == map[2 := Sweeping(s)]
    ensures CanLose(t, w)
  {
    hide Legal, Play, CanLose, Safe, Keys.MintedShape, Enabled, Assumed, Apply, Judged;
    var w2 := w.(procs := map[2 := Sweeping(s.(orphans := {k1}))]);
    var w3 := w.(lost := map["s" := {k1}], procs := map[2 := Sweeping(Deleting({k0, k1}, {}))]);
    SweepDestroys(t, w3, k0, k1);
    TrashesStep(t, w2, s.(orphans := {k1}), k0, k1);
    LostAfter(t, w2, SweepTrashes(2, "s"), w3);
    JudgedOrphan(s, k1);
    SeesStep(t, w, s, k1);
    LostAfter(t, w, SweepSees(2, k1), w2);
  }

  lemma TrashesStep(t: Timing, w: World, s: Sweep, k0: string, k1: string)
    requires s.Listing? && s.referenced == {k0} && s.orphans == {k1} && s.derived == {} && w.lost == map[]
    requires w.procs == map[2 := Sweeping(s)]
    ensures Enabled(t, w, SweepTrashes(2, "s")) && Assumed(t, w, SweepTrashes(2, "s"))
    ensures Apply(t, w, SweepTrashes(2, "s"))
            == w.(lost := map["s" := {k1}], procs := map[2 := Sweeping(Deleting({k0, k1}, {}))])
  {
    assert {k0} + {k1} == {k0, k1};
  }

  lemma SeesStep(t: Timing, w: World, s: Sweep, k: string)
    requires s.Listing? && w.procs == map[2 := Sweeping(s)] && k in w.blobs && Listed(s, k, w.blobs[k])
    ensures Enabled(t, w, SweepSees(2, k)) && Assumed(t, w, SweepSees(2, k))
    ensures Apply(t, w, SweepSees(2, k)) == w.(procs := map[2 := Sweeping(Judged(s, k))])
  {
    hide Judged, Listed;
  }

  lemma JudgedOrphan(s: Sweep, k: string)
    requires s.Listing? && s.orphans == {} && k !in s.referenced && s.referenced != {} && 0 <= s.cutoff
    requires Keys.MintedShape(k)
    ensures Listed(s, k, 0) && Judged(s, k) == s.(orphans := {k})
  {
    Keys.MintedIsOriginal(k);
  }

  /** The first file of the run below, written whole. */
  lemma FirstWrite(t: Timing, k0: string)
    requires Keys.MintedShape(k0)
    requires CanLose(t, World(0, One(k0), map[], map[], map[k0 := 0], {k0}, {}, map[]))
    ensures CanLose(t, EMPTY)
  {
    hide Legal, Play, CanLose, Safe, Keys.MintedShape, Paths.ValidPath;
    Paths.ShortPaths();
    var w1 := World(0, map[], map[], map[], map[k0 := 0], {k0}, {}, map[0 := Writing(map[k0 := 0])]);
    var w2 := World(0, One(k0), map[], map[], map[k0 := 0], {k0}, {}, map[]);
    assert w1.procs - {0} == map[] && w1.procs[0].stored.Keys == {k0};
    LostAfter(t, w1, CommitWrite(0, A, Plain(k0)), w2);
    assert {} + {k0} == {k0};
    LostAfter(t, EMPTY, Store(0, k0), w1);
  }

  /** And the run up to there: a write stores its blob, waits its whole deadline,
      and commits just after the sweep read the file keys. */
  lemma SweepMissesIt(t: Timing, k0: string, k1: string)
    requires t.grace <= t.deadline + t.window
    requires k0 != k1 && Keys.MintedShape(k0) && Keys.MintedShape(k1)
    ensures CanLose(t, EMPTY)
  {
    hide Legal, Play, CanLose, Safe, Keys.MintedShape, Paths.ValidPath;
    var waiting := Writing(map[k1 := 0]);
    var w2 := World(0, One(k0), map[], map[], map[k0 := 0], {k0}, {}, map[]);
    var w3 := World(0, One(k0), map[], map[], Blobs(k0, k1), {k0, k1}, {}, map[1 := waiting]);
    var w4 := w3.(now := t.deadline);
    var w5 := w4.(procs := map[1 := waiting, 2 := Sweeping(ReadFiles(t.deadline, {k0}))]);
    var w6 := w5.(files := Two(k0, k1), procs := map[2 := Sweeping(ReadFiles(t.deadline, {k0}))]);
    SweepReadsOn(t, w6, k0, k1);
    CommitsBetween(t, w5, w6, k0, k1);
    assert A in w4.files && FileKeys(w4.files) == {k0};
    LostAfter(t, w4, SweepFiles(2), w5);
    LostAfter(t, w3, Tick(t.deadline), w4);
    assert w2.blobs[k1 := 0] == w3.blobs && w2.minted + {k1} == {k0, k1};
    LostAfter(t, w2, Store(1, k1), w3);
    FirstWrite(t, k0);
  }

  lemma SweepReadsOn(t: Timing, w: World, k0: string, k1: string)
    requires t.grace <= t.deadline + t.window
    requires k0 != k1 && Keys.MintedShape(k1)
    requires w == World(t.deadline, Two(k0, k1), map[], map[], Blobs(k0, k1), {k0, k1}, {},
             map[2 := Sweeping(ReadFiles(t.deadline, {k0}))])
    ensures CanLose(t, w)
  {
    hide Legal, Play, CanLose, Safe, Keys.MintedShape;
    var w7 := w.(procs := map[2 := Sweeping(ReadBoth(t.deadline, {k0}))]);
    var w8 := w7.(now := t.deadline + t.window);
    SweepTakesIt(t, w8, k0, k1, t.deadline);
    LostAfter(t, w7, Tick(t.window), w8);
    TrashReadStep(t, w, {k0});
    LostAfter(t, w, SweepTrash(2), w7);
  }

  lemma CommitsBetween(t: Timing, w: World, after: World, k0: string, k1: string)
    requires w.now == t.deadline && w.files == One(k0)
    requires w.procs == map[1 := Writing(map[k1 := 0]), 2 := Sweeping(ReadFiles(t.deadline, {k0}))]
    requires after == w.(files := Two(k0, k1), procs := map[2 := Sweeping(ReadFiles(t.deadline, {k0}))])
    requires CanLose(t, after)
    ensures CanLose(t, w)
  {
    hide Legal, Play, CanLose, Safe, Paths.ValidPath;
    Paths.ShortPaths();
    assert Insert(w.files, B, Plain(k1)) == Ok(Two(k0, k1));
    assert w.procs - {1} == after.procs && w.procs[1].stored.Keys == {k1};
    LostAfter(t, w, CommitWrite(1, B, Plain(k1)), after);
  }

  /** Where a restore is free to commit between the sweep's reads, no grace helps:
      a deletion as old as anybody likes is in neither read. */
  lemma RestoreSlipsThrough(t: Timing, k0: string, k1: string)
    requires !t.apart && k0 != k1 && Keys.MintedShape(k0) && Keys.MintedShape(k1)
    ensures CanLose(t, EMPTY)
  {
    hide Legal, Play, CanLose, Safe, Keys.MintedShape, Paths.ValidPath;
    var deleted := map[BatchId("o", "t") := map["b" := Plain(k1)]];
    var w2 := World(0, One(k0), map[], map[], map[k0 := 0], {k0}, {}, map[]);
    var w3 := World(0, One(k0), map[], map[], Blobs(k0, k1), {k0, k1}, {}, map[1 := Writing(map[k1 := 0])]);
    var w4 := w3.(files := Two(k0, k1), procs := map[]);
    var w5 := w4.(files := One(k0), trash := deleted);
    var w6 := w5.(now := t.grace);
    var w7 := w6.(procs := map[2 := Sweeping(ReadFiles(t.grace, {k0}))]);
    RestoredBetween(t, w7, k0, k1);
    assert A in w6.files && FileKeys(w6.files) == {k0};
    LostAfter(t, w6, SweepFiles(2), w7);
    LostAfter(t, w5, Tick(t.grace), w6);
    RemovesSecond(t, w4, w5, k0, k1);
    SecondWrite(t, w3, w4, k0, k1);
    assert w2.blobs[k1 := 0] == w3.blobs && w2.minted + {k1} == {k0, k1};
    LostAfter(t, w2, Store(1, k1), w3);
    FirstWrite(t, k0);
  }

  lemma SecondWrite(t: Timing, w: World, after: World, k0: string, k1: string)
    requires w.now == 0 && w.files == One(k0) && w.procs == map[1 := Writing(map[k1 := 0])]
    requires after == w.(files := Two(k0, k1), procs := map[]) && CanLose(t, after)
    ensures CanLose(t, w)
  {
    hide Legal, Play, CanLose, Safe, Paths.ValidPath;
    Paths.ShortPaths();
    assert Insert(w.files, B, Plain(k1)) == Ok(Two(k0, k1));
    assert w.procs - {1} == map[] && w.procs[1].stored.Keys == {k1};
    LostAfter(t, w, CommitWrite(1, B, Plain(k1)), after);
  }

  lemma OnlySecond()
    ensures Paths.AtOrUnder("b", "b") && !Paths.AtOrUnder("a", "b")
  {
  }

  lemma SecondTaken(k0: string, k1: string)
    ensures RemoveTree(Two(k0, k1), B) == Ok(map["b" := Plain(k1)])
    ensures Without(Two(k0, k1), "o", "b") == One(k0)
    ensures Restore(One(k0), "o", map["b" := Plain(k1)]) == Ok(Restored(Two(k0, k1), "b"))
  {
    hide Paths.ValidPath, Restore, Paths.AtOrUnder, Paths.ParentOf;
    Paths.ShortPaths();
    OnlySecond();
    assert Subtree(Two(k0, k1), "o", "b") == map["b" := Plain(k1)];
    assert Without(Two(k0, k1), "o", "b") == One(k0);
    Restores.RemoveThenRestore(Two(k0, k1), B);
  }

  lemma RemovesSecond(t: Timing, w: World, after: World, k0: string, k1: string)
    requires w.files == Two(k0, k1) && w.trash == map[]
    requires after == w.(files := One(k0), trash := map[BatchId("o", "t") := map["b" := Plain(k1)]])
    requires CanLose(t, after)
    ensures CanLose(t, w)
  {
    hide Legal, Play, CanLose, Safe, Paths.ValidPath, RemoveTree, Without;
    SecondTaken(k0, k1);
    LostAfter(t, w, Remove(B, "t"), after);
  }

  lemma RestoredBetween(t: Timing, w: World, k0: string, k1: string)
    requires !t.apart && k0 != k1 && Keys.MintedShape(k1) && w.now == t.grace
    requires w.files == One(k0) && w.blobs == Blobs(k0, k1) && w.lost == map[]
    requires w.trash == map[BatchId("o", "t") := map["b" := Plain(k1)]]
    requires w.procs == map[2 := Sweeping(ReadFiles(t.grace, {k0}))]
    ensures CanLose(t, w)
  {
    hide Legal, Play, CanLose, Safe, Keys.MintedShape, Enabled, Assumed, Apply;
    var w8 := w.(files := Two(k0, k1), trash := map[]);
    var w9 := w8.(procs := map[2 := Sweeping(ReadBoth(t.grace, {k0}))]);
    SweepTakesIt(t, w9, k0, k1, t.grace);
    TrashReadStep(t, w8, {k0});
    LostAfter(t, w8, SweepTrash(2), w9);
    RestoreStep(t, w, k0, k1);
    LostAfter(t, w, RestoreBatch(BatchId("o", "t")), w8);
  }

  /** The second read, when no deletion is left for it to find. */
  lemma TrashReadStep(t: Timing, w: World, referenced: set<string>)
    requires w.trash == map[] && w.lost == map[] && w.procs == map[2 := Sweeping(ReadFiles(w.now, referenced))]
    ensures Enabled(t, w, SweepTrash(2)) && Assumed(t, w, SweepTrash(2))
    ensures Apply(t, w, SweepTrash(2)) == w.(procs := map[2 := Sweeping(ReadBoth(w.now, referenced))])
  {
    assert TrashKeys(w) == {} && referenced + {} == referenced;
  }

  lemma RestoreStep(t: Timing, w: World, k0: string, k1: string)
    requires !t.apart && w.files == One(k0) && w.trash == map[BatchId("o", "t") := map["b" := Plain(k1)]]
    ensures Enabled(t, w, RestoreBatch(BatchId("o", "t"))) && Assumed(t, w, RestoreBatch(BatchId("o", "t")))
    ensures Apply(t, w, RestoreBatch(BatchId("o", "t"))) == w.(files := Two(k0, k1), trash := map[])
  {
    hide Restore;
    SecondTaken(k0, k1);
    assert w.trash - {BatchId("o", "t")} == map[];
  }

  /** No run loses a file exactly when the grace is longer than a write's gap and a
      sweep's reads together -- equality is not enough, since the read and the
      commit may share a moment -- and restores keep apart from those reads. */
  lemma GraceIsExact(t: Timing)
    ensures CanLose(t, EMPTY) <==> !Sound(t)
  {
    if Sound(t) {
      if run :| Legal(t, EMPTY, run) && !Safe(Play(t, EMPTY, run)) {
        EveryRunIsSafe(t, run);
        assert false;
      }
    } else {
      var k0 := Keys.NewBlobKey("", "other", 2024, 1, 1, "A");
      var k1 := Keys.NewBlobKey("", "image", 2024, 1, 1, "A");
      Keys.NewBlobKeyShape("", "other", 2024, 1, 1, "A");
      Keys.NewBlobKeyShape("", "image", 2024, 1, 1, "A");
      assert k0[0] == 'o' && k1[0] == 'i';
      if t.apart { SweepMissesIt(t, k0, k1); } else { RestoreSlipsThrough(t, k0, k1); }
    }
  }
}
