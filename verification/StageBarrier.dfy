/**
 The restore stages (criu/cr-restore.c, restore_finish_stage in criu/include/restorer.h).

 criu stores the number of participants of the next stage in nr_in_progress, then publishes the
 stage number in start.  Every participant decrements the counter when it has finished a stage and
 waits until the stage number changes.  Without namespaces the root task itself publishes the first
 two stage changes.  The two stores are separate steps here, and so are all actions of all
 participants; a run interleaves them in any order.
 */
module StageBarrier {
  import opened FiniteSums
  import opened Wrappers

  type Id = nat

  const FAIL := -1
  const ROOT_TASK := 0
  const PREPARE_NAMESPACES := 1
  const FORKING := 2
  const RESTORE := 3
  const RESTORE_SIGCHLD := 4
  const RESTORE_CREDS := 5
  const COMPLETE := 6

  /** A live task, a zombie, a helper added by criu, or a further thread of a live task. */
  datatype Kind = Alive | Zombie | Helper | Thread

  /** The processes to restore, and the threads beyond the first one of each live task. */
  datatype Tree = Tree(
    namespaces: bool,              // root_ns_mask != 0
    root: Id,
    kind: map<Id, Kind>,
    parent: map<Id, Id>,           // of a process; of a thread, its task
    awaited: map<Id, set<Id>>)     // the zombies and helpers a live task waits for after RESTORE
  {
    ghost predicate Is(p: Id, k: Kind) { p in kind && kind[p] == k }

    ghost predicate Dying(p: Id) { Is(p, Zombie) || Is(p, Helper) }

    ghost function All(k: Kind): set<Id> { set p | p in kind && kind[p] == k }

    ghost function Parent(p: Id): Id { if p in parent then parent[p] else p }

    ghost function Awaited(p: Id): set<Id> { if p in awaited then awaited[p] else {} }

    ghost predicate NodeOk(p: Id) {
      && Parent(p) < p && Parent(p) in kind && kind[Parent(p)] != Thread
      && (Is(p, Thread) ==> Is(Parent(p), Alive))
    }

    ghost predicate Valid() {
      && Is(root, Alive)
      && (forall p {:trigger NodeOk(p)} :: p in kind && p != root ==> NodeOk(p))
      && (forall p, d :: d in Awaited(p) ==> Dying(d))
    }

    /** Who has to report for a stage. */
    ghost predicate Takes(p: Id, stage: int) {
      && p in kind
      && (if stage == ROOT_TASK || stage == PREPARE_NAMESPACES then p == root
          else if stage == FORKING then kind[p] != Thread
          else if stage == RESTORE then true
          else (stage == RESTORE_SIGCHLD || stage == RESTORE_CREDS) && (kind[p] == Alive || kind[p] == Thread))
    }

    ghost function Participants(stage: int): set<Id> { set p | p in kind && Takes(p, stage) }

    /** The children p forks during FORKING; the threads p starts during RESTORE. */
    ghost predicate Spawned(p: Id, c: Id, stage: int) {
      && c in kind && c != root && Parent(c) == p
      && (if kind[c] == Thread then stage == RESTORE else stage == FORKING)
    }

    ghost predicate DyingChild(p: Id, c: Id) { Dying(c) && c != root && Parent(c) == p }
  }

  /** The counters kept in task_entries. */
  datatype Counters = Counters(nrTasks: nat, nrHelpers: nat, nrThreads: int)

  function StageParticipants(n: Counters, stage: int): int {
    if stage == ROOT_TASK || stage == PREPARE_NAMESPACES then 1
    else if stage == FORKING then n.nrTasks + n.nrHelpers
    else if stage == RESTORE then n.nrThreads + n.nrHelpers
    else if stage == RESTORE_SIGCHLD || stage == RESTORE_CREDS then n.nrThreads
    else 0
  }

  /** criu counts every task of the image and all its threads, zombies included, and the helpers it adds. */
  ghost predicate Counted(t: Tree, n: Counters) {
    && n.nrTasks == |t.All(Alive)| + |t.All(Zombie)| && n.nrHelpers == |t.All(Helper)|
    && n.nrThreads == |t.All(Alive)| + |t.All(Thread)| + |t.All(Zombie)|
  }

  datatype CriuPc = Store(next: int) | Publish(next: int) | ForkRoot | Await(stage: int) | DropZombies | Finished

  datatype Pc =
    | Absent
    | Working(stage: int)        // busy with a stage, has not reported it
    | Parked(stage: int)         // has reported a stage, waits for start to change
    | StoreSelf(next: int)       // the root task on its way to publish a stage itself
    | PublishSelf(next: int)
    | Reaping                    // reported RESTORE, waits for any dying child
    | Collecting                 // waits for all dying children
    | TooEarly                   // saw a child die during RESTORE
    | Gone                       // exited
    | Resumed

  datatype State = State(start: int, nr: int, counters: Counters, criu: CriuPc, pc: map<Id, Pc>)
  {
    ghost function Pc(p: Id): Pc { if p in pc then pc[p] else Absent }

    ghost function At(p: Id, x: Pc): State { this.(pc := pc[p := x]) }
  }

  ghost predicate Initial(t: Tree, s: State) {
    && s.pc.Keys == t.kind.Keys && s.start == FAIL && s.nr == 0 && Counted(t, s.counters) && s.criu == Store(ROOT_TASK)
    && forall p :: s.Pc(p) == Absent
  }

  // ----- Steps -----

  ghost function CriuStep(t: Tree, s: State): Option<State> {
    match s.criu
    case Store(n) => Some(s.(nr := StageParticipants(s.counters, n), criu := Publish(n)))
    case Publish(n) =>
      Some(s.(start := n, criu := if n == ROOT_TASK then ForkRoot else if n == COMPLETE then Finished else Await(n)))
    case ForkRoot =>
      Some(s.At(t.root, Working(ROOT_TASK)).(criu := Await(if t.namespaces then ROOT_TASK else FORKING)))
    case Await(n) =>
      if s.nr > 0 then None
      else Some(s.(criu := if n == RESTORE then DropZombies else if n == RESTORE_CREDS then Publish(COMPLETE) else Store(n + 1)))
    case DropZombies =>
      Some(s.(counters := s.counters.(nrThreads := s.counters.nrThreads - |t.All(Zombie)|), criu := Store(RESTORE_SIGCHLD)))
    case Finished => None
  }

  /** What p waits for before it reports the stage it is working on. */
  ghost predicate MayReport(t: Tree, s: State, p: Id, stage: int) {
    && (forall c :: t.Spawned(p, c, stage) ==> s.Pc(c) != Absent)
    && (stage == FORKING && p == t.root ==> s.nr <= 1)
    && (stage == RESTORE_SIGCHLD && t.Is(p, Alive) ==> forall d :: d in t.Awaited(p) ==> s.Pc(d) == Gone)
  }

  /** Zombies and helpers that expect children to die do not wait for the next stage. */
  ghost function AfterReport(t: Tree, p: Id, stage: int): Pc {
    if stage == RESTORE && t.Dying(p) && exists c :: t.DyingChild(p, c) then Reaping else Parked(stage)
  }

  /** What p does after start has moved on. */
  ghost function Wake(t: Tree, p: Id, stage: int): Pc {
    if stage == RESTORE && t.Dying(p) then Gone
    else if stage == RESTORE_CREDS then Resumed
    else Working(stage + 1)
  }

  ghost function Step(t: Tree, s: State, p: Id): Option<State> {
    match s.Pc(p)
    case Working(n) =>
      if p == t.root && !t.namespaces && n <= PREPARE_NAMESPACES then Some(s.At(p, StoreSelf(n + 1)))
      else if MayReport(t, s, p, n) then Some(s.At(p, AfterReport(t, p, n)).(nr := s.nr - 1))
      else None
    case StoreSelf(n) => Some(s.At(p, PublishSelf(n)).(nr := StageParticipants(s.counters, n)))
    case PublishSelf(n) => Some(s.At(p, Working(n)).(start := n))
    case Parked(n) => if s.start == n then None else Some(s.At(p, Wake(t, p, n)))
    case Reaping =>
      if exists c :: t.DyingChild(p, c) && s.Pc(c) == Gone
      then Some(s.At(p, if s.start == RESTORE then TooEarly else Collecting))
      else None
    case Collecting =>
      if forall c :: t.DyingChild(p, c) ==> s.Pc(c) == Gone then Some(s.At(p, Gone)) else None
    case _ => None
  }

  /** p forks child c, or starts thread c, while working on the stage. */
  ghost predicate Spawns(t: Tree, s: State, p: Id, c: Id) {
    s.Pc(p).Working? && t.Spawned(p, c, s.Pc(p).stage) && s.Pc(c) == Absent
  }

  /** One action: of criu, of participant p, or of p bringing c to life. */
  datatype Action = Criu | Act(p: Id) | Spawn(p: Id, c: Id)

  ghost function Do(t: Tree, s: State, a: Action): Option<State> {
    match a
    case Criu => CriuStep(t, s)
    case Act(p) => Step(t, s, p)
    case Spawn(p, c) => if Spawns(t, s, p, c) then Some(s.At(c, Working(s.Pc(p).stage))) else None
  }

  // ----- The invariant of all reachable states -----

  /** The last stage p has finished. */
  ghost function Level(pc: Pc): int {
    match pc
    case Absent => -1
    case Working(n) => n - 1
    case Parked(n) => n
    case StoreSelf(n) => n - 2
    case PublishSelf(n) => n - 1
    case Resumed => RESTORE_CREDS
    case _ => RESTORE
  }

  ghost function Reported(s: State, stage: int): set<Id> {
    set p | p in s.pc && Level(s.pc[p]) >= stage
  }

  /** The stage that nr_in_progress is about: start, or the next one between the two stores. */
  ghost function CountedStage(t: Tree, s: State): int {
    if s.criu.Publish? then s.criu.next
    else if s.Pc(t.root).PublishSelf? then s.Pc(t.root).next
    else s.start
  }

  /** The number of participants of a stage that have not finished it. */
  ghost function Owing(t: Tree, s: State, stage: int): nat {
    Outside(t.Participants(stage), Reported(s, stage))
  }

  /** Everybody has finished the stage that start shows. */
  ghost predicate Complete(t: Tree, s: State) {
    forall p {:trigger t.Takes(p, s.start)} :: t.Takes(p, s.start) ==> Level(s.Pc(p)) >= s.start
  }

  /** criu publishes this stage: all of them with namespaces, all but the first two changes without. */
  ghost predicate ByCriu(t: Tree, n: int) { n == ROOT_TASK || n >= RESTORE || (t.namespaces && n > 0) }

  ghost predicate Late(c: CriuPc) {
    match c
    case Store(n) => n > RESTORE
    case Publish(n) => n > RESTORE
    case Await(n) => n > RESTORE
    case Finished => true
    case _ => false
  }

  ghost predicate CriuInv(t: Tree, s: State) {
    && Counted(t, if Late(s.criu) then s.counters.(nrThreads := s.counters.nrThreads + |t.All(Zombie)|) else s.counters)
    && match s.criu
       case Store(n) => s.start == n - 1 && 0 <= n <= RESTORE_CREDS && ByCriu(t, n) && Complete(t, s)
       case Publish(n) => s.start == n - 1 && 0 <= n <= COMPLETE && ByCriu(t, n) && Complete(t, s)
       case ForkRoot => s.start == ROOT_TASK
       case Await(n) =>
         if n == FORKING && !t.namespaces then 0 <= s.start <= FORKING
         else s.start == n && 0 <= n <= RESTORE_CREDS && (t.namespaces || n >= RESTORE)
       case DropZombies => s.start == RESTORE && Complete(t, s)
       case Finished => s.start == COMPLETE
  }

  /** Before the root task is forked nothing runs. */
  ghost predicate Before(c: CriuPc) { c == Store(ROOT_TASK) || c == Publish(ROOT_TASK) || c == ForkRoot }

  ghost predicate SelfPublishing(t: Tree, s: State, p: Id, n: int) {
    p == t.root && !t.namespaces && s.start == n - 1 && 1 <= n <= FORKING && s.criu == Await(FORKING)
  }

  ghost predicate PcInv(t: Tree, s: State, p: Id, pc: Pc, cs: int) {
    match pc
    case Absent => (p == t.root ==> Before(s.criu)) && (!t.Is(p, Thread) ==> cs <= FORKING) && cs <= RESTORE
    case Working(n) => n == s.start == cs && t.Takes(p, n)
    case Parked(n) => n <= s.start && t.Takes(p, n) && (n < FORKING ==> t.namespaces)
    case StoreSelf(n) => SelfPublishing(t, s, p, n) && cs == s.start
    case PublishSelf(n) => SelfPublishing(t, s, p, n)
    case Reaping => t.Dying(p) && (exists c :: t.DyingChild(p, c)) && s.start >= RESTORE
    case Collecting => t.Dying(p) && s.start > RESTORE
    case TooEarly => false
    case Gone => t.Dying(p) && s.start > RESTORE
    case Resumed => (t.Is(p, Alive) || t.Is(p, Thread)) && s.start == COMPLETE
  }

  /** p has finished every earlier stage it takes part in. */
  ghost predicate CaughtUp(t: Tree, p: Id, pc: Pc, cs: int) {
    forall st {:trigger t.Takes(p, st)} :: st < cs && t.Takes(p, st) ==> Level(pc) >= st
  }

  ghost predicate NodeInv(t: Tree, s: State, p: Id) {
    var pc, cs := s.Pc(p), CountedStage(t, s);
    && PcInv(t, s, p, pc, cs) && CaughtUp(t, p, pc, cs)
    && (Before(s.criu) ==> pc == Absent)
    && BroodInv(t, s, p)
  }

  /** Whoever has finished a stage has brought to life all it had to. */
  ghost predicate BroodInv(t: Tree, s: State, p: Id) {
    forall c, st {:trigger t.Spawned(p, c, st)} :: t.Spawned(p, c, st) && Level(s.Pc(p)) >= st ==> s.Pc(c) != Absent
  }

  ghost predicate Inv(t: Tree, s: State) {
    && s.pc.Keys == t.kind.Keys && CriuInv(t, s) && s.nr == Owing(t, s, CountedStage(t, s))
    && forall p {:trigger NodeInv(t, s, p)} :: p in t.kind ==> NodeInv(t, s, p)
  }

  lemma InitialInv(t: Tree, s: State)
    requires t.Valid() && Initial(t, s)
    ensures Inv(t, s)
  {
    assert t.Participants(FAIL) == {};
  }

  lemma RootTakesPart(t: Tree, stage: int)
    requires t.Valid() && (stage == ROOT_TASK || stage == PREPARE_NAMESPACES)
    ensures t.Participants(stage) == {t.root}
  {
  }

  lemma TasksTakePart(t: Tree)
    requires t.Valid()
    ensures t.Participants(FORKING) == t.All(Alive) + t.All(Zombie) + t.All(Helper)
    ensures t.Participants(RESTORE) == t.All(Alive) + t.All(Zombie) + t.All(Helper) + t.All(Thread)
  {
  }

  lemma LiveTakePart(t: Tree, stage: int)
    requires t.Valid() && RESTORE < stage <= RESTORE_CREDS
    ensures t.Participants(stage) == t.All(Alive) + t.All(Thread)
  {
  }

  lemma KindsApart(t: Tree)
    ensures var a, z, h, x := t.All(Alive), t.All(Zombie), t.All(Helper), t.All(Thread);
            && |a + z + h| == |a| + |z| + |h| && |a + z + h + x| == |a| + |z| + |h| + |x| && |a + x| == |a| + |x|
  {
    var a, z, h, x := t.All(Alive), t.All(Zombie), t.All(Helper), t.All(Thread);
    assert a !! z && a + z !! h && a + z + h !! x && a !! x;
  }

  /** The stored number is the number of participants, provided the zombies were dropped in time. */
  lemma StoredCount(t: Tree, n: Counters, stage: int)
    requires t.Valid() && ROOT_TASK <= stage <= RESTORE_CREDS
    requires Counted(t, if stage > RESTORE then n.(nrThreads := n.nrThreads + |t.All(Zombie)|) else n)
    ensures StageParticipants(n, stage) == |t.Participants(stage)|
  {
    KindsApart(t);
    if stage == ROOT_TASK || stage == PREPARE_NAMESPACES { RootTakesPart(t, stage); }
    else if stage <= RESTORE { TasksTakePart(t); }
    else { LiveTakePart(t, stage); }
  }

  lemma LevelBound(t: Tree, s: State, p: Id)
    requires PcInv(t, s, p, s.Pc(p), CountedStage(t, s)) && s.start >= -1
    ensures Level(s.Pc(p)) <= s.start
  {
  }

  lemma StoreNode(t: Tree, s: State, s': State, p: Id)
    requires t.Valid() && Inv(t, s) && s.criu.Store? && CriuStep(t, s) == Some(s') && p in s.pc
    ensures NodeInv(t, s', p) && p !in Reported(s', s.criu.next)
  {
    assert NodeInv(t, s, t.root) && NodeInv(t, s, p);
    LevelBound(t, s, p);
    assert t.Takes(p, s.start) ==> Level(s.Pc(p)) >= s.start;
  }

  /** Storing the count of the next stage once everybody has finished this one. */
  lemma StoreInv(t: Tree, s: State)
    requires t.Valid() && Inv(t, s) && s.criu.Store?
    ensures Inv(t, CriuStep(t, s).value)
  {
    var s' := CriuStep(t, s).value;
    assert NodeInv(t, s, t.root);
    var n := s.criu.next;
    assert CountedStage(t, s') == n;
    forall p | p in s.pc
      ensures NodeInv(t, s', p)
      ensures p !in Reported(s', n)
    {
      StoreNode(t, s, s', p);
    }
    OutsideFull(t.Participants(n), Reported(s', n));
    StoredCount(t, s.counters, n);
  }

  lemma PublishNode(t: Tree, s: State, p: Id)
    requires t.Valid() && Inv(t, s) && s.criu.Publish? && p in t.kind
    ensures NodeInv(t, CriuStep(t, s).value, p)
  {
    assert NodeInv(t, s, p) && NodeInv(t, s, t.root);
  }

  lemma PublishInv(t: Tree, s: State)
    requires t.Valid() && Inv(t, s) && s.criu.Publish?
    ensures Inv(t, CriuStep(t, s).value)
  {
    var s' := CriuStep(t, s).value;
    assert NodeInv(t, s, t.root);
    forall p | p in t.kind ensures NodeInv(t, s', p) { PublishNode(t, s, p); }
    assert CountedStage(t, s') == CountedStage(t, s);
  }

  lemma ReportedSame(s: State, s': State, stage: int)
    requires s'.pc.Keys == s.pc.Keys && forall p :: p in s.pc ==> Level(s'.pc[p]) == Level(s.pc[p])
    ensures Reported(s', stage) == Reported(s, stage)
  {
  }

  lemma ForkRootNode(t: Tree, s: State, s': State, p: Id)
    requires t.Valid() && NodeInv(t, s, p) && NodeInv(t, s, t.root) && s.criu == ForkRoot && s.start == ROOT_TASK && p in s.pc
    requires s' == s.At(t.root, Working(ROOT_TASK)).(criu := Await(if t.namespaces then ROOT_TASK else FORKING))
    ensures NodeInv(t, s', p)
  {
  }

  lemma ForkRootInv(t: Tree, s: State)
    requires t.Valid() && Inv(t, s) && s.criu == ForkRoot
    ensures Inv(t, CriuStep(t, s).value)
  {
    var s' := CriuStep(t, s).value;
    assert NodeInv(t, s, t.root);
    forall p | p in s.pc ensures NodeInv(t, s', p) {
      assert NodeInv(t, s, p);
      ForkRootNode(t, s, s', p);
    }
    ReportedSame(s, s', ROOT_TASK);
  }

  /** When criu gets past its wait, the stage it waited for is the current one and everybody has finished it. */
  lemma AwaitDone(t: Tree, s: State)
    requires t.Valid() && Inv(t, s) && s.criu.Await? && s.nr <= 0
    ensures s.start == s.criu.stage == CountedStage(t, s) && Complete(t, s)
  {
    var cs := CountedStage(t, s);
    OutsideZero(t.Participants(cs), Reported(s, cs));
    forall p | t.Takes(p, cs) ensures Level(s.Pc(p)) >= cs {
      assert p in t.Participants(cs);
    }
    assert NodeInv(t, s, t.root);
    assert t.Takes(t.root, ROOT_TASK) && t.Takes(t.root, PREPARE_NAMESPACES) && t.Takes(t.root, FORKING);
  }

  lemma AwaitNode(t: Tree, s: State, p: Id)
    requires t.Valid() && Inv(t, s) && s.criu.Await? && CriuStep(t, s).Some? && p in t.kind && Complete(t, s)
    requires s.start == s.criu.stage == CountedStage(t, s)
    ensures NodeInv(t, CriuStep(t, s).value, p)
  {
    assert NodeInv(t, s, p) && NodeInv(t, s, t.root) && t.Takes(t.root, ROOT_TASK) && t.Takes(t.root, PREPARE_NAMESPACES);
    assert t.Takes(p, s.start) ==> Level(s.Pc(p)) >= s.start;
  }

  lemma NobodyLeft(t: Tree, s: State)
    ensures Owing(t, s, COMPLETE) == 0
  {
    assert t.Participants(COMPLETE) == {};
  }

  lemma AwaitInv(t: Tree, s: State)
    requires t.Valid() && Inv(t, s) && s.criu.Await? && CriuStep(t, s).Some?
    ensures Inv(t, CriuStep(t, s).value)
  {
    var s' := CriuStep(t, s).value;
    AwaitDone(t, s);
    assert NodeInv(t, s, t.root);
    assert t.Takes(t.root, ROOT_TASK) && t.Takes(t.root, PREPARE_NAMESPACES);
    forall p | p in t.kind ensures NodeInv(t, s', p) { AwaitNode(t, s, p); }
    NobodyLeft(t, s');
  }

  lemma DropZombiesNode(t: Tree, s: State, s': State, p: Id)
    requires t.Valid() && NodeInv(t, s, p) && NodeInv(t, s, t.root) && s.criu == DropZombies && s.start == RESTORE
    requires s' == s.(counters := s'.counters, criu := Store(RESTORE_SIGCHLD))
    ensures NodeInv(t, s', p)
  {
  }

  lemma DropZombiesInv(t: Tree, s: State)
    requires t.Valid() && Inv(t, s) && s.criu == DropZombies
    ensures Inv(t, CriuStep(t, s).value)
  {
    var s' := CriuStep(t, s).value;
    assert NodeInv(t, s, t.root);
    forall p | p in s.pc ensures NodeInv(t, s', p) {
      assert NodeInv(t, s, p);
      DropZombiesNode(t, s, s', p);
    }
  }

  // ----- Steps of participants -----

  /** A step that changes only the program counter of p, keeps its level, and concerns no other participant. */
  ghost predicate Local(t: Tree, s: State, s': State, p: Id) {
    && p in s.pc && s' == s.At(p, s'.Pc(p)) && Level(s'.Pc(p)) == Level(s.Pc(p))
    && (s.Pc(p).PublishSelf? <==> s'.Pc(p).PublishSelf?) && (s'.Pc(p) == Absent ==> s.Pc(p) == Absent)
  }

  /** A participant does not notice a step of another one that keeps the stage. */
  lemma NodeFrame(t: Tree, s: State, s': State, p: Id, q: Id)
    requires Inv(t, s) && q in t.kind && q != p && p in s.pc
    requires s'.pc == s.pc[p := s'.Pc(p)] && (s'.Pc(p) == Absent ==> s.Pc(p) == Absent)
    requires s'.start == s.start && s'.criu == s.criu && CountedStage(t, s') == CountedStage(t, s)
    ensures NodeInv(t, s', q)
  {
    assert NodeInv(t, s, q);
    assert forall c :: s.Pc(c) != Absent ==> s'.Pc(c) != Absent;
  }

  lemma Assemble(t: Tree, s: State, s': State, p: Id)
    requires Inv(t, s) && p in s.pc && s'.pc == s.pc[p := s'.Pc(p)] && s'.Pc(p) != Absent && Level(s'.Pc(p)) >= Level(s.Pc(p))
    requires s'.start == s.start && s'.criu == s.criu && s'.counters == s.counters
    requires CountedStage(t, s') == CountedStage(t, s) && s'.nr == Owing(t, s', CountedStage(t, s')) && NodeInv(t, s', p)
    ensures Inv(t, s')
  {
    forall q | q in t.kind && q != p ensures NodeInv(t, s', q) { NodeFrame(t, s, s', p, q); }
    CompleteFrame(t, s, s', p);
  }

  lemma LocalInv(t: Tree, s: State, s': State, p: Id)
    requires t.Valid() && Inv(t, s) && Local(t, s, s', p)
    requires PcInv(t, s', p, s'.Pc(p), CountedStage(t, s)) && !Before(s.criu) && !s.Pc(p).PublishSelf? && s'.Pc(p) != Absent
    ensures Inv(t, s')
  {
    assert CountedStage(t, s') == CountedStage(t, s);
    assert Reported(s', CountedStage(t, s)) == Reported(s, CountedStage(t, s));
    assert NodeInv(t, s, p);
    Assemble(t, s, s', p);
  }

  lemma CompleteFrame(t: Tree, s: State, s': State, p: Id)
    requires CriuInv(t, s) && s'.start == s.start && s'.criu == s.criu && s'.counters == s.counters
    requires p in s.pc && s'.pc == s.pc[p := s'.Pc(p)] && Level(s'.Pc(p)) >= Level(s.Pc(p))
    ensures CriuInv(t, s') && s'.pc.Keys == s.pc.Keys
  {
    assert forall q :: Level(s'.Pc(q)) >= Level(s.Pc(q));
  }

  lemma SpawnInv(t: Tree, s: State, p: Id, c: Id)
    requires t.Valid() && Inv(t, s) && Spawns(t, s, p, c)
    ensures Inv(t, s.At(c, Working(s.Pc(p).stage)))
  {
    assert NodeInv(t, s, p) && NodeInv(t, s, c);
    LocalLikeSpawn(t, s, s.At(c, Working(s.Pc(p).stage)), c);
  }

  lemma LocalLikeSpawn(t: Tree, s: State, s': State, c: Id)
    requires t.Valid() && Inv(t, s) && c in s.pc && c != t.root && s.Pc(c) == Absent && !Before(s.criu)
    requires s' == s.At(c, Working(s.start)) && CountedStage(t, s) == s.start && t.Takes(c, s.start)
    requires s.start == FORKING || s.start == RESTORE
    ensures Inv(t, s')
  {
    assert NodeInv(t, s, c);
    forall x, st | t.Spawned(c, x, st) ensures Level(s'.Pc(c)) < st { assert t.NodeOk(x); }
    assert Reported(s', s.start) == Reported(s, s.start);
    Assemble(t, s, s', c);
  }

  lemma ReportNode(t: Tree, s: State, s': State, p: Id, n: int)
    requires t.Valid() && NodeInv(t, s, p) && s.Pc(p) == Working(n) && MayReport(t, s, p, n)
    requires !(p == t.root && !t.namespaces && n <= PREPARE_NAMESPACES) && CountedStage(t, s') == CountedStage(t, s)
    requires s' == s.At(p, AfterReport(t, p, n)).(nr := s.nr - 1)
    ensures NodeInv(t, s', p)
  {
  }

  lemma ReportedMore(t: Tree, s: State, s': State, p: Id, n: int)
    requires p in s.pc && s.Pc(p) == Working(n) && s'.pc == s.pc[p := AfterReport(t, p, n)]
    ensures p !in Reported(s, n) && Reported(s', n) == Reported(s, n) + {p}
  {
  }

  lemma ReportCount(t: Tree, s: State, s': State, p: Id, n: int)
    requires t.Valid() && Inv(t, s) && NodeInv(t, s, p) && p in s.pc && s.Pc(p) == Working(n)
    requires s' == s.At(p, AfterReport(t, p, n)).(nr := s.nr - 1)
    ensures CountedStage(t, s') == CountedStage(t, s) && s'.nr == Owing(t, s', CountedStage(t, s))
  {
    ReportedMore(t, s, s', p, n);
    OutsideAdd(t.Participants(n), Reported(s, n), p);
  }

  lemma ReportInv(t: Tree, s: State, s': State, p: Id, n: int)
    requires t.Valid() && Inv(t, s) && p in s.pc && s.Pc(p) == Working(n) && MayReport(t, s, p, n)
    requires !(p == t.root && !t.namespaces && n <= PREPARE_NAMESPACES)
    requires s' == s.At(p, AfterReport(t, p, n)).(nr := s.nr - 1)
    ensures Inv(t, s')
  {
    assert NodeInv(t, s, p);
    ReportCount(t, s, s', p, n);
    ReportNode(t, s, s', p, n);
    Assemble(t, s, s', p);
  }

  lemma StoreSelfNode(t: Tree, s: State, s': State, p: Id, n: int, q: Id)
    requires t.Valid() && NodeInv(t, s, p) && NodeInv(t, s, q) && p in s.pc && s.Pc(p) == StoreSelf(n) && q in s.pc
    requires s' == s.At(p, PublishSelf(n)).(nr := s'.nr)
    ensures NodeInv(t, s', q) && q !in Reported(s', n)
  {
    LevelBound(t, s, q);
  }

  lemma StoreSelfInv(t: Tree, s: State, p: Id)
    requires t.Valid() && Inv(t, s) && p in s.pc && s.Pc(p).StoreSelf?
    ensures Inv(t, Step(t, s, p).value)
  {
    var s' := Step(t, s, p).value;
    var n := s.Pc(p).next;
    assert NodeInv(t, s, p);
    forall q | q in t.kind
      ensures NodeInv(t, s', q)
      ensures q !in Reported(s', n)
    {
      assert NodeInv(t, s, q);
      StoreSelfNode(t, s, s', p, n, q);
    }
    OutsideFull(t.Participants(n), Reported(s', n));
    StoredCount(t, s.counters, n);
  }

  lemma PublishSelfNode(t: Tree, s: State, s': State, p: Id, n: int, q: Id)
    requires t.Valid() && NodeInv(t, s, p) && NodeInv(t, s, q) && p in s.pc && s.Pc(p) == PublishSelf(n) && q in s.pc
    requires s' == s.At(p, Working(n)).(start := n)
    ensures NodeInv(t, s', q)
  {
  }

  lemma PublishSelfInv(t: Tree, s: State, p: Id)
    requires t.Valid() && Inv(t, s) && p in s.pc && s.Pc(p).PublishSelf?
    ensures Inv(t, Step(t, s, p).value)
  {
    var s' := Step(t, s, p).value;
    var n := s.Pc(p).next;
    assert NodeInv(t, s, p);
    assert Reported(s', n) == Reported(s, n);
    forall q | q in t.kind ensures NodeInv(t, s', q) {
      assert NodeInv(t, s, q);
      PublishSelfNode(t, s, s', p, n, q);
    }
  }

  /** Whoever leaves a wait finds the very next stage it takes part in, or the end. */
  lemma WakeInv(t: Tree, s: State, p: Id)
    requires t.Valid() && Inv(t, s) && p in s.pc && Step(t, s, p).Some? && s.Pc(p).Parked?
    ensures Inv(t, Step(t, s, p).value)
  {
    var s' := Step(t, s, p).value;
    var n := s.Pc(p).stage;
    assert NodeInv(t, s, p) && NodeInv(t, s, t.root);
    assert t.Takes(p, n + 1) <==> !(n >= RESTORE && t.Dying(p)) && n < RESTORE_CREDS;
    LocalInv(t, s, s', p);
  }

  lemma SelfInv(t: Tree, s: State, p: Id)
    requires t.Valid() && Inv(t, s) && p in s.pc
    requires s.Pc(p).Working? && p == t.root && !t.namespaces && s.Pc(p).stage <= PREPARE_NAMESPACES
    ensures Inv(t, Step(t, s, p).value)
  {
    assert NodeInv(t, s, p);
    LocalInv(t, s, Step(t, s, p).value, p);
  }

  /** A zombie or helper that waits for its children never sees one die too early. */
  lemma ReapInv(t: Tree, s: State, p: Id)
    requires t.Valid() && Inv(t, s) && p in s.pc && Step(t, s, p).Some? && (s.Pc(p).Reaping? || s.Pc(p).Collecting?)
    ensures s.start > RESTORE && Inv(t, Step(t, s, p).value)
  {
    var s' := Step(t, s, p).value;
    assert NodeInv(t, s, p);
    if s.Pc(p).Reaping? {
      var c :| t.DyingChild(p, c) && s.Pc(c) == Gone;
      assert NodeInv(t, s, c);
    }
    LocalInv(t, s, s', p);
  }

  /** Every action keeps the invariant. */
  lemma DoInv(t: Tree, s: State, a: Action)
    requires t.Valid() && Inv(t, s) && Do(t, s, a).Some?
    ensures Inv(t, Do(t, s, a).value)
  {
    match a
    case Criu =>
      match s.criu {
        case Store(_) => StoreInv(t, s);
        case Publish(_) => PublishInv(t, s);
        case ForkRoot => ForkRootInv(t, s);
        case Await(_) => AwaitInv(t, s);
        case DropZombies => DropZombiesInv(t, s);
        case Finished =>
      }
    case Spawn(p, c) => SpawnInv(t, s, p, c);
    case Act(p) =>
      match s.Pc(p) {
        case Working(n) =>
          if p == t.root && !t.namespaces && n <= PREPARE_NAMESPACES { SelfInv(t, s, p); } else { ReportInv(t, s, Do(t, s, a).value, p, n); }
        case StoreSelf(_) => StoreSelfInv(t, s, p);
        case PublishSelf(_) => PublishSelfInv(t, s, p);
        case Parked(_) => WakeInv(t, s, p);
        case Reaping => ReapInv(t, s, p);
        case Collecting => ReapInv(t, s, p);
        case _ =>
      }
  }

  // ----- Runs -----

  ghost predicate Run(t: Tree, r: seq<State>, acts: seq<Action>) {
    && |r| == |acts| + 1 && Initial(t, r[0])
    && forall i {:trigger Next(t, r[i], acts[i], r[i + 1])} :: 0 <= i < |acts| ==> Next(t, r[i], acts[i], r[i + 1])
  }

  ghost predicate Next(t: Tree, s: State, a: Action, s': State) { Do(t, s, a) == Some(s') }

  lemma RunNext(t: Tree, r: seq<State>, acts: seq<Action>, n: nat)
    requires Run(t, r, acts) && n < |acts|
    ensures Next(t, r[n], acts[n], r[n + 1])
  {
  }

  lemma {:induction false} RunInv(t: Tree, r: seq<State>, acts: seq<Action>, n: nat)
    requires t.Valid() && Run(t, r, acts) && n < |r|
    ensures Inv(t, r[n])
  {
    if n == 0 {
      InitialInv(t, r[0]);
    } else {
      RunInv(t, r, acts, n - 1);
      RunNext(t, r, acts, n - 1);
      DoInv(t, r[n - 1], acts[n - 1]);
    }
  }

  /** nr_in_progress is always the number of participants that still owe a report. */
  lemma CounterIsExact(t: Tree, r: seq<State>, acts: seq<Action>, n: nat)
    requires t.Valid() && Run(t, r, acts) && n < |r|
    ensures var cs := CountedStage(t, r[n]); r[n].nr == |t.Participants(cs) - Reported(r[n], cs)|
  {
    RunInv(t, r, acts, n);
    var cs := CountedStage(t, r[n]);
    OutsideIsSize(t.Participants(cs), Reported(r[n], cs));
  }

  /** start moves one stage at a time, and only after every participant has finished the stage it shows. */
  lemma StageAdvances(t: Tree, r: seq<State>, acts: seq<Action>, n: nat)
    requires t.Valid() && Run(t, r, acts) && n < |acts| && r[n + 1].start != r[n].start
    ensures r[n + 1].start == r[n].start + 1
    ensures forall p :: t.Takes(p, r[n].start) ==> Level(r[n].Pc(p)) >= r[n].start
  {
    var s := r[n];
    RunInv(t, r, acts, n);
    RunNext(t, r, acts, n);
    if acts[n].Act? {
      var p := acts[n].p;
      assert NodeInv(t, s, p);
      forall q | t.Takes(q, s.start) ensures Level(s.Pc(q)) >= s.start { }
    }
  }

  /** No zombie or helper leaves during RESTORE, and nobody mistakes a late death for an early one. */
  lemma NobodyTooEarly(t: Tree, r: seq<State>, acts: seq<Action>, n: nat, p: Id)
    requires t.Valid() && Run(t, r, acts) && n < |r|
    ensures r[n].Pc(p) != TooEarly
    ensures r[n].Pc(p).Working? ==> r[n].Pc(p).stage == r[n].start
    ensures r[n].Pc(p) == Gone ==> r[n].start > RESTORE && t.Dying(p)
  {
    RunInv(t, r, acts, n);
    if p in t.kind { assert NodeInv(t, r[n], p); }
  }

  // ----- No run gets stuck -----

  ghost predicate Stuck(t: Tree, s: State) { forall a :: Do(t, s, a) == None }

  /** Once its dying children are gone, a zombie or helper can go too. */
  lemma CanLeave(t: Tree, s: State, p: Id)
    requires t.Valid() && Inv(t, s) && s.start > RESTORE && t.Dying(p)
    requires forall c :: t.DyingChild(p, c) ==> s.Pc(c) == Gone
    ensures s.Pc(p) == Gone || Do(t, s, Act(p)).Some?
  {
    assert NodeInv(t, s, p) && NodeInv(t, s, t.root) && t.Takes(p, RESTORE);
    if s.Pc(p).Reaping? {
      var c :| t.DyingChild(p, c);
      assert s.Pc(c) == Gone;
    }
  }

  lemma {:induction false} DyingProceeds(t: Tree, s: State, p: Id, limit: nat) returns (a: Action)
    requires t.Valid() && Inv(t, s) && s.start > RESTORE && t.Dying(p) && s.Pc(p) != Gone
    requires forall q :: q in t.kind ==> q < limit
    ensures Do(t, s, a).Some?
    decreases limit - p
  {
    if c :| t.DyingChild(p, c) && s.Pc(c) != Gone {
      assert t.NodeOk(c);
      a := DyingProceeds(t, s, c, limit);
    } else {
      CanLeave(t, s, p);
      a := Act(p);
    }
  }

  /** A process that is still missing during FORKING has a living ancestor that can fork. */
  lemma {:induction false} CanFork(t: Tree, s: State, c: Id) returns (a: Action)
    requires t.Valid() && Inv(t, s) && !Before(s.criu) && c in t.kind && s.Pc(c) == Absent
    requires s.criu.Await? && s.start == CountedStage(t, s) && (if t.Is(c, Thread) then s.start == RESTORE else s.start == FORKING)
    ensures Do(t, s, a).Some?
    decreases c
  {
    assert NodeInv(t, s, c) && NodeInv(t, s, t.root) && t.NodeOk(c);
    var p := t.Parent(c);
    assert NodeInv(t, s, p) && t.Spawned(p, c, s.start);
    if s.Pc(p) == Absent {
      a := CanFork(t, s, p);
    } else {
      assert t.Takes(p, s.start - 1) || p != t.root;
      a := if s.Pc(p).Working? then Spawn(p, c) else Act(p);
    }
  }

  /** Somebody that owes a report; not the root task unless it is the only one. */
  lemma Debtor(t: Tree, s: State) returns (p: Id)
    requires t.Valid() && Inv(t, s) && s.nr > 0
    ensures t.Takes(p, CountedStage(t, s)) && p in s.pc && Level(s.Pc(p)) < CountedStage(t, s)
    ensures p == t.root ==> s.nr == 1
  {
    var cs := CountedStage(t, s);
    var x, y := t.Participants(cs), Reported(s, cs);
    OutsideZero(x, y);
    if t.root in x {
      OutsideSplit(x, y, t.root);
      OutsideZero(x - {t.root}, y);
      if s.nr > 1 { p :| p in x - {t.root} && p !in y; } else { p :| p in x && p !in y; }
    } else {
      p :| p in x && p !in y;
    }
  }

  /** A participant at work can report, or bring somebody to life, or waits for a zombie or helper that can go. */
  lemma WorkerProceeds(t: Tree, s: State, p: Id) returns (a: Action)
    requires t.Valid() && Inv(t, s) && p in s.pc && s.Pc(p).Working? && (p == t.root ==> s.nr <= 1)
    ensures Do(t, s, a).Some?
  {
    var n := s.Pc(p).stage;
    assert NodeInv(t, s, p);
    if c :| t.Spawned(p, c, n) && s.Pc(c) == Absent {
      a := Spawn(p, c);
    } else if d :| n == RESTORE_SIGCHLD && d in t.Awaited(p) && s.Pc(d) != Gone {
      var limit := UpperBound(t.kind.Keys);
      a := DyingProceeds(t, s, d, limit);
    } else {
      a := Act(p);
    }
  }

  /** While criu waits, some participant can act. */
  lemma AwaitProceeds(t: Tree, s: State) returns (a: Action)
    requires t.Valid() && Inv(t, s) && s.criu.Await? && s.nr > 0
    ensures Do(t, s, a).Some?
  {
    assert NodeInv(t, s, t.root);
    if s.Pc(t.root).PublishSelf? {
      a := Act(t.root);
    } else {
      var p := Debtor(t, s);
      assert NodeInv(t, s, p);
      if s.Pc(p).Working? { a := WorkerProceeds(t, s, p); }
      else if s.Pc(p) == Absent { a := CanFork(t, s, p); }
      else { a := Act(p); }
    }
  }

  /** A run that cannot go on has reached COMPLETE with everybody restored, resumed or gone. */
  lemma StuckIsDone(t: Tree, r: seq<State>, acts: seq<Action>, p: Id)
    requires t.Valid() && Run(t, r, acts) && Stuck(t, r[|acts|]) && p in t.kind
    ensures r[|acts|].start == COMPLETE && r[|acts|].criu == Finished
    ensures r[|acts|].Pc(p) == if t.Dying(p) then Gone else Resumed
  {
    var s := r[|acts|];
    RunInv(t, r, acts, |acts|);
    assert Do(t, s, Criu) == None;
    if s.criu.Await? { var a := AwaitProceeds(t, s); }
    assert NodeInv(t, s, p) && NodeInv(t, s, t.root) && t.Takes(p, RESTORE_CREDS) == !t.Dying(p);
    assert Do(t, s, Act(p)) == None;
    if t.Dying(p) && s.Pc(p) != Gone {
      var limit := UpperBound(t.kind.Keys);
      var a := DyingProceeds(t, s, p, limit);
    }
  }

  // ----- Every run ends -----

  ghost function CriuRank(c: CriuPc): nat {
    match c
    case Store(n) => if 0 <= n <= 7 then 5 * (7 - n) + 4 else 0
    case Publish(n) => if 0 <= n <= 7 then 5 * (7 - n) + 3 else 0
    case ForkRoot => 37
    case Await(n) => if 0 <= n <= 7 then 5 * (7 - n) + 1 else 0
    case DropZombies => 20
    case Finished => 0
  }

  ghost function Rank(pc: Pc): nat {
    match pc
    case Absent => 24
    case Working(n) => if 0 <= n <= 7 then 3 * (7 - n) + 2 else 0
    case Parked(n) => if 0 <= n <= 7 then 3 * (7 - n) + 1 else 0
    case StoreSelf(n) => if 0 <= n <= 8 then 3 * (8 - n) + 1 else 0
    case PublishSelf(n) => if 0 <= n <= 8 then 3 * (8 - n) else 0
    case Reaping => 2
    case Collecting => 1
    case _ => 0
  }

  ghost function Ranks(s: State): map<Id, nat> { map p | p in s.pc :: Rank(s.pc[p]) }

  ghost function Measure(s: State): nat { CriuRank(s.criu) + Sum(Ranks(s)) }

  lemma RankDrops(s: State, s': State, p: Id)
    requires p in s.pc && s'.pc == s.pc[p := s'.Pc(p)] && Rank(s'.Pc(p)) < Rank(s.Pc(p)) && CriuRank(s'.criu) <= CriuRank(s.criu)
    ensures Measure(s') < Measure(s)
  {
    assert Ranks(s') == Ranks(s)[p := Rank(s'.Pc(p))];
    SumUpdate(Ranks(s), p, Rank(s'.Pc(p)));
  }

  lemma ReportDrops(t: Tree, s: State, p: Id, n: int)
    requires NodeInv(t, s, p) && s.Pc(p) == Working(n) && -1 <= s.start <= COMPLETE
    ensures Rank(AfterReport(t, p, n)) < Rank(s.Pc(p)) && Rank(StoreSelf(n + 1)) < Rank(s.Pc(p))
  {
  }

  lemma WakeDrops(t: Tree, s: State, p: Id, n: int)
    requires NodeInv(t, s, p) && s.Pc(p) == Parked(n) && s.start != n && -1 <= s.start <= COMPLETE
    ensures Rank(Wake(t, p, n)) < Rank(s.Pc(p))
  {
  }

  lemma ActShape(t: Tree, s: State, s': State, p: Id)
    requires Step(t, s, p) == Some(s')
    ensures p in s.pc && s'.pc == s.pc[p := s'.Pc(p)] && s'.criu == s.criu
  {
  }

  lemma ActDrops(t: Tree, s: State, s': State, p: Id)
    requires t.Valid() && Inv(t, s) && Step(t, s, p) == Some(s')
    ensures p in s.pc && Rank(s'.Pc(p)) < Rank(s.Pc(p)) && s'.pc == s.pc[p := s'.Pc(p)] && s'.criu == s.criu
  {
    ActShape(t, s, s', p);
    assert NodeInv(t, s, p);
    if s.Pc(p).Working? { ReportDrops(t, s, p, s.Pc(p).stage); }
    if s.Pc(p).Parked? { WakeDrops(t, s, p, s.Pc(p).stage); }
  }

  lemma CriuDrops(t: Tree, s: State, s': State)
    requires t.Valid() && Inv(t, s) && CriuStep(t, s) == Some(s')
    ensures Measure(s') < Measure(s)
  {
    if s.criu == ForkRoot {
      assert NodeInv(t, s, t.root);
      RankDrops(s, s', t.root);
    } else {
      assert s'.pc == s.pc && CriuRank(s'.criu) < CriuRank(s.criu);
    }
  }

  lemma SpawnDrops(t: Tree, s: State, s': State, p: Id, c: Id)
    requires t.Valid() && Inv(t, s) && Do(t, s, Spawn(p, c)) == Some(s')
    ensures Measure(s') < Measure(s)
  {
    assert NodeInv(t, s, p);
    RankDrops(s, s', c);
  }

  lemma DoDecreases(t: Tree, s: State, s': State, a: Action)
    requires t.Valid() && Inv(t, s) && Next(t, s, a, s')
    ensures Measure(s') < Measure(s)
  {
    match a
    case Criu => CriuDrops(t, s, s');
    case Act(p) => ActDrops(t, s, s', p); RankDrops(s, s', p);
    case Spawn(p, c) => SpawnDrops(t, s, s', p, c);
  }

  ghost function Measures(r: seq<State>): (ms: seq<nat>)
    ensures |ms| == |r|
  {
    seq(|r|, i requires 0 <= i < |r| => Measure(r[i]))
  }

  lemma MeasuresDrop(t: Tree, r: seq<State>, acts: seq<Action>, i: nat)
    requires t.Valid() && Run(t, r, acts) && 0 < i < |r|
    ensures DropsAt(Measures(r), i)
  {
    RunInv(t, r, acts, i - 1);
    RunNext(t, r, acts, i - 1);
    DoDecreases(t, r[i - 1], r[i], acts[i - 1]);
  }

  lemma RunsAreBounded(t: Tree, r: seq<State>, acts: seq<Action>)
    requires t.Valid() && Run(t, r, acts)
    ensures |acts| <= Measure(r[0])
  {
    forall i | 0 < i < |r| ensures DropsAt(Measures(r), i) {
      MeasuresDrop(t, r, acts, i);
    }
    Descent(Measures(r), |acts|);
  }

  lemma OldSteps(t: Tree, r: seq<State>, acts: seq<Action>, s': State, a: Action, i: nat)
    requires Run(t, r, acts) && i < |acts|
    ensures Next(t, (r + [s'])[i], (acts + [a])[i], (r + [s'])[i + 1])
  {
    assert (r + [s'])[i] == r[i] && (r + [s'])[i + 1] == r[i + 1] && (acts + [a])[i] == acts[i];
  }

  lemma RunExtends(t: Tree, r: seq<State>, acts: seq<Action>, s': State, a: Action)
    requires Run(t, r, acts) && Next(t, r[|acts|], a, s')
    ensures Run(t, r + [s'], acts + [a])
  {
    var r', acts' := r + [s'], acts + [a];
    forall i | 0 <= i < |acts'| ensures Next(t, r'[i], acts'[i], r'[i + 1]) {
      if i < |acts| {
        OldSteps(t, r, acts, s', a, i);
      } else {
        assert r'[i] == r[|acts|] && r'[i + 1] == s' && acts'[i] == a;
      }
    }
    assert r'[0] == r[0];
  }

  /** Every run can be continued until nobody can act. */
  lemma {:induction false} Continue(t: Tree, r: seq<State>, acts: seq<Action>) returns (r': seq<State>, acts': seq<Action>)
    requires t.Valid() && Run(t, r, acts)
    ensures Run(t, r', acts') && r <= r' && Stuck(t, r'[|acts'|])
    decreases Measure(r[|acts|])
  {
    var s := r[|acts|];
    RunInv(t, r, acts, |acts|);
    if Stuck(t, s) {
      r', acts' := r, acts;
    } else {
      var a :| Do(t, s, a) != None;
      var s' := Do(t, s, a).value;
      DoDecreases(t, s, s', a);
      RunExtends(t, r, acts, s', a);
      r', acts' := Continue(t, r + [s'], acts + [a]);
    }
  }

  /** So from every valid tree some run, and by StuckIsDone every run that ends, restores everybody. */
  lemma CanFinish(t: Tree, s: State) returns (r: seq<State>, acts: seq<Action>)
    requires t.Valid() && Initial(t, s)
    ensures Run(t, r, acts) && r[0] == s && r[|acts|].start == COMPLETE
    ensures forall p :: p in t.kind ==> r[|acts|].Pc(p) == if t.Dying(p) then Gone else Resumed
  {
    r, acts := Continue(t, [s], []);
    assert r[0] == [s][0];
    forall p | p in t.kind ensures r[|acts|].Pc(p) == if t.Dying(p) then Gone else Resumed {
      StuckIsDone(t, r, acts, p);
    }
    StuckIsDone(t, r, acts, t.root);
  }

  /** The theorems speak about something: a root task with a thread and a zombie child, ready to be restored. */
  lemma SmallTreeCanStart(t: Tree, s: State)
    requires t == Tree(true, 1, map[1 := Alive, 2 := Zombie, 3 := Thread], map[2 := 1, 3 := 1], map[])
    requires s == State(FAIL, 0, Counters(2, 0, 3), Store(ROOT_TASK), map[1 := Absent, 2 := Absent, 3 := Absent])
    ensures t.Valid() && Run(t, [s], [])
  {
    assert t.All(Alive) == {1} && t.All(Zombie) == {2} && t.All(Thread) == {3} && t.All(Helper) == {};
  }
}
