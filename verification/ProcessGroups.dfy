/**
 Restoring process groups (restore_pgid in criu/cr-restore.c, counters from criu/pstree.c).

 A task that leads a group first joins its own group, announces that (pgrp_set) and waits until
 every other member has joined (pgrp_member_cnt); only then does it move on to the group it is
 itself a member of, which may be another one.  All tasks run concurrently; `Step` is one
 indivisible action of one task.  Group ids are the pids of their leaders.
 */
module ProcessGroups {
  import opened FiniteSums
  import opened Wrappers

  type Task = nat

  datatype Config = Config(
    tasks: set<Task>,
    pgid: map<Task, Task>,         // vpgid: the group a task is to end up in
    sessionLeaders: set<Task>,
    outsiders: set<Task>,          // members of the group inherited from the shell (--shell-job)
    initial: map<Task, Task>)      // curr_pgid when restore_pgid starts
  {
    ghost function Leader(t: Task): Task { if t in pgid then pgid[t] else t }

    ghost predicate SessionLeader(t: Task) { t in sessionLeaders }

    ghost predicate External(t: Task) { t in outsiders }

    ghost function Born(t: Task): Task { if t in initial then initial[t] else t }

    /** The members that the restore counts in l's pgrp_member_cnt. */
    ghost predicate Member(m: Task, l: Task) {
      m in tasks && !External(m) && m != l && Leader(m) == l && !SessionLeader(l)
    }

    ghost function Members(l: Task): set<Task> {
      set m | m in tasks && Member(m, l)
    }

    ghost predicate Leads(l: Task) { exists m :: Member(m, l) }

    /** Sessions are restored before groups: groups led by session leaders exist already, others do not. */
    ghost predicate TaskOk(t: Task) {
      && Leader(t) in tasks
      && (SessionLeader(t) ==> Leader(t) == t)
      && (SessionLeader(Leader(t)) ==> Born(t) == Leader(t))
      && (!SessionLeader(Leader(t)) && Leader(t) != t ==> Born(t) != Leader(t))
    }

    ghost predicate Valid() {
      forall t {:trigger TaskOk(t)} :: t in tasks && !External(t) ==> TaskOk(t)
    }
  }

  datatype Pc = Start | Own | Announce | Drain | Join | Enter | Leave | Done

  datatype State = State(pc: map<Task, Pc>, cnt: map<Task, int>, announced: set<Task>, pgid: map<Task, Task>)

  ghost predicate Shaped(c: Config, s: State) {
    s.pc.Keys == c.tasks && s.cnt.Keys == c.tasks && s.pgid.Keys == c.tasks
  }

  ghost function Finished(s: State): set<Task> {
    set t | t in s.pc && s.pc[t] == Done
  }

  /** The number of members of l that have not yet counted themselves off. */
  ghost function Owing(c: Config, s: State, l: Task): nat {
    Outside(c.Members(l), Finished(s))
  }

  /** pgrp_member_cnt starts at the number of other members, as criu/pstree.c counts them. */
  ghost predicate Initial(c: Config, s: State) {
    && Shaped(c, s) && s.announced == {}
    && (forall t :: t in c.tasks ==> s.pc[t] == Start && s.pgid[t] == c.Born(t))
    && (forall t :: t in c.tasks ==> s.cnt[t] == Owing(c, s, t))
  }

  ghost function Step(c: Config, s: State, t: Task): Option<State>
    requires t in s.pc && t in s.cnt && t in s.pgid
  {
    var l := c.Leader(t);
    match s.pc[t]
    case Start =>
      Some(s.(pc := s.pc[t := if c.External(t) then Done else if s.cnt[t] != 0 then Own else Join]))
    case Own => Some(s.(pc := s.pc[t := Announce], pgid := s.pgid[t := t]))
    case Announce => Some(s.(pc := s.pc[t := Drain], announced := s.announced + {t}))
    case Drain => if s.cnt[t] == 0 then Some(s.(pc := s.pc[t := Join])) else None
    case Join =>
      if s.pgid[t] == l then Some(s.(pc := s.pc[t := Leave]))
      else if t == l || l in s.announced then Some(s.(pc := s.pc[t := Enter]))
      else None
    case Enter => Some(s.(pc := s.pc[t := Leave], pgid := s.pgid[t := l]))
    case Leave =>
      Some(s.(pc := s.pc[t := Done],
              cnt := if t != l && !c.SessionLeader(l) && l in s.cnt then s.cnt[l := s.cnt[l] - 1] else s.cnt))
    case Done => None
  }

  ghost predicate CanStep(c: Config, s: State, t: Task)
    requires Shaped(c, s)
  {
    t in c.tasks && Step(c, s, t).Some?
  }

  ghost predicate Next(c: Config, s: State, s': State, t: Task) {
    Shaped(c, s) && t in c.tasks && Step(c, s, t) == Some(s')
  }

  // ----- The invariant of all reachable states -----

  /** The task has joined its own group and not yet left it. */
  ghost predicate Leading(pc: Pc) { pc == Announce || pc == Drain }

  ghost predicate Past(pc: Pc) { pc == Join || pc == Enter || pc == Leave || pc == Done }

  ghost predicate TaskInv(c: Config, s: State, t: Task)
    requires Shaped(c, s) && t in c.tasks
  {
    var pc := s.pc[t];
    && (c.External(t) ==> (pc == Start || pc == Done) && t !in s.announced)
    && (pc == Start ==> s.pgid[t] == c.Born(t))
    && (pc == Own || Leading(pc) ==> c.Leads(t))
    && (Leading(pc) ==> s.pgid[t] == t)
    && (t in s.announced ==> (pc == Drain || Past(pc)) && c.Leads(t)) && (pc == Drain ==> t in s.announced)
    && (Past(pc) && !c.External(t) ==> s.cnt[t] == 0)
    && (pc == Join ==> s.pgid[t] == c.Born(t) || c.Leads(t))
    && (t in s.announced || c.Born(t) != c.Leader(t) ==>
          t != c.Leader(t) && s.pgid[t] == c.Leader(t) ==> c.Leader(t) in s.announced)
    && (pc == Enter ==> s.pgid[t] != c.Leader(t) && (t == c.Leader(t) || c.Leader(t) in s.announced))
    && (!c.External(t) && (pc == Leave || pc == Done) ==> s.pgid[t] == c.Leader(t))
  }

  ghost predicate CountOk(c: Config, s: State, t: Task) { t in s.cnt && s.cnt[t] == Owing(c, s, t) }

  ghost predicate Inv(c: Config, s: State) {
    && Shaped(c, s)
    && (forall t {:trigger CountOk(c, s, t)} :: t in c.tasks ==> CountOk(c, s, t))
    && forall t {:trigger TaskInv(c, s, t)} :: t in c.tasks ==> TaskInv(c, s, t)
  }

  lemma InitialInv(c: Config, s: State)
    requires c.Valid() && Initial(c, s)
    ensures Inv(c, s)
  {
  }

  lemma StepShaped(c: Config, s: State, s': State, t: Task)
    requires Next(c, s, s', t)
    ensures Shaped(c, s') && (s'.announced == s.announced || s'.announced == s.announced + {t})
  {
  }

  /** A step of t touches no other task's program counter or group, and announces at most t. */
  lemma StepFrame(c: Config, s: State, s': State, t: Task)
    requires Next(c, s, s', t)
    ensures Shaped(c, s') && (s'.announced == s.announced || s'.announced == s.announced + {t})
    ensures forall u :: u in c.tasks && u != t ==> s'.pc[u] == s.pc[u] && s'.pgid[u] == s.pgid[u]
  {
    StepShaped(c, s, s', t);
    forall u | u in c.tasks && u != t ensures s'.pc[u] == s.pc[u] { }
    if s.pc[t] == Own || s.pc[t] == Enter {
      assert s'.pgid == s.pgid[t := s'.pgid[t]];
    } else {
      assert s'.pgid == s.pgid;
    }
  }

  lemma StepRank(c: Config, s: State, s': State, t: Task)
    requires Next(c, s, s', t)
    ensures t in s'.pc && Rank(s'.pc[t]) < Rank(s.pc[t])
  {
  }

  lemma FinishedAfter(c: Config, s: State, s': State, t: Task)
    requires Shaped(c, s) && Shaped(c, s') && t in c.tasks && s.pc[t] != Done
    requires forall u :: u in c.tasks && u != t ==> s'.pc[u] == s.pc[u]
    ensures t !in Finished(s) && Finished(s') == if s'.pc[t] == Done then Finished(s) + {t} else Finished(s)
  {
  }

  lemma OwedIsLed(c: Config, s: State, u: Task)
    requires u in c.tasks && Owing(c, s, u) != 0
    ensures c.Leads(u)
  {
    OutsideZero(c.Members(u), Finished(s));
    var m :| m in c.Members(u);
    assert c.Member(m, u);
  }

  /** The counter of u keeps counting the members of u that have not counted themselves off. */
  lemma CountInv(c: Config, s: State, s': State, t: Task, u: Task)
    requires Next(c, s, s', t) && Shaped(c, s') && u in c.tasks
    requires if c.External(t) then s.pc[t] == Start else c.TaskOk(t)
    requires CountOk(c, s, u)
    ensures CountOk(c, s', u) && s'.cnt[u] <= s.cnt[u]
  {
    StepFrame(c, s, s', t);
    FinishedAfter(c, s, s', t);
    OutsideAdd(c.Members(u), Finished(s), t);
  }

  /** The counter of u never falls below the members still owing, so a task past its own group keeps 0. */
  lemma OtherInv(c: Config, s: State, s': State, t: Task, u: Task)
    requires Shaped(c, s) && Shaped(c, s') && u in c.tasks && u != t && TaskInv(c, s, u)
    requires s'.pc[u] == s.pc[u] && s'.pgid[u] == s.pgid[u] && 0 <= s'.cnt[u] <= s.cnt[u]
    requires s'.announced == s.announced || s'.announced == s.announced + {t}
    ensures TaskInv(c, s', u)
  {
  }

  /** Up to the point where t waits for its members. */
  lemma LeadingInv(c: Config, s: State, s': State, t: Task)
    requires Next(c, s, s', t) && Shaped(c, s') && TaskInv(c, s, t)
    requires 0 <= s'.cnt[t] <= s.cnt[t] && (s.cnt[t] != 0 ==> c.Leads(t))
    requires !Past(s.pc[t]) && (!c.External(t) ==> c.TaskOk(t))
    ensures TaskInv(c, s', t)
  {
  }

  /** From there on. */
  lemma PastInv(c: Config, s: State, s': State, t: Task)
    requires Next(c, s, s', t) && Shaped(c, s') && TaskInv(c, s, t)
    requires 0 <= s'.cnt[t] <= s.cnt[t]
    requires Past(s.pc[t]) && (!c.External(t) ==> c.TaskOk(t))
    ensures TaskInv(c, s', t)
  {
  }

  lemma OwnInv(c: Config, s: State, s': State, t: Task)
    requires c.Valid() && Next(c, s, s', t) && Shaped(c, s') && TaskInv(c, s, t)
    requires CountOk(c, s, t) && 0 <= s'.cnt[t] <= s.cnt[t]
    ensures TaskInv(c, s', t)
  {
    assert !c.External(t) ==> c.TaskOk(t);
    if s.cnt[t] != 0 { OwedIsLed(c, s, t); }
    if Past(s.pc[t]) { PastInv(c, s, s', t); } else { LeadingInv(c, s, s', t); }
  }

  lemma StepInv(c: Config, s: State, s': State, t: Task)
    requires c.Valid() && Inv(c, s) && Next(c, s, s', t)
    ensures Inv(c, s')
  {
    assert TaskInv(c, s, t) && (!c.External(t) ==> c.TaskOk(t));
    StepFrame(c, s, s', t);
    forall u | u in c.tasks ensures TaskInv(c, s', u) && CountOk(c, s', u) {
      assert TaskInv(c, s, u) && CountOk(c, s, u);
      CountInv(c, s, s', t, u);
      if u == t { OwnInv(c, s, s', t); } else { OtherInv(c, s, s', t, u); }
    }
  }

  // ----- Runs -----

  ghost predicate Run(c: Config, r: seq<State>, sched: seq<Task>) {
    && |r| == |sched| + 1 && Initial(c, r[0])
    && forall i {:trigger Next(c, r[i], r[i + 1], sched[i])} :: 0 <= i < |sched| ==> Next(c, r[i], r[i + 1], sched[i])
  }

  lemma RunNext(c: Config, r: seq<State>, sched: seq<Task>, n: nat)
    requires Run(c, r, sched) && n < |sched|
    ensures Next(c, r[n], r[n + 1], sched[n])
  {
  }

  lemma InvAfter(c: Config, r: seq<State>, sched: seq<Task>, n: nat)
    requires c.Valid() && Run(c, r, sched) && n < |sched| && Inv(c, r[n])
    ensures Inv(c, r[n + 1])
  {
    RunNext(c, r, sched, n);
    StepInv(c, r[n], r[n + 1], sched[n]);
  }

  lemma {:induction false} RunInv(c: Config, r: seq<State>, sched: seq<Task>, n: nat)
    requires c.Valid() && Run(c, r, sched) && n < |r|
    ensures Inv(c, r[n])
  {
    if n == 0 {
      InitialInv(c, r[0]);
    } else {
      RunInv(c, r, sched, n - 1);
      InvAfter(c, r, sched, n - 1);
    }
  }

  /** A task enters a foreign group only while the leader of that group is in it, waiting for its members. */
  lemma LeaderIsThere(c: Config, s: State, t: Task)
    requires c.Valid() && Inv(c, s) && t in c.tasks && s.pc[t] == Enter && t != c.Leader(t)
    ensures !c.SessionLeader(t) && c.Leader(t) in c.tasks && !c.SessionLeader(c.Leader(t))
    ensures s.pc[c.Leader(t)] == Drain && s.pgid[c.Leader(t)] == c.Leader(t) && s.cnt[c.Leader(t)] > 0
  {
    var l := c.Leader(t);
    assert TaskInv(c, s, t) && c.TaskOk(t);
    assert TaskInv(c, s, l) && CountOk(c, s, l);
    OutsideZero(c.Members(l), Finished(s));
    assert t in c.Members(l);
  }

  /** A leader that has announced its group stays in it, waiting, until every member has counted itself off. */
  lemma LeaderStays(c: Config, r: seq<State>, sched: seq<Task>, n: nat, l: Task)
    requires c.Valid() && Run(c, r, sched) && n < |r| && l in r[n].announced && l in c.tasks
    ensures Shaped(c, r[n]) && (r[n].cnt[l] > 0 ==> r[n].pc[l] == Drain && r[n].pgid[l] == l)
    ensures r[n].cnt[l] == 0 <==> c.Members(l) <= Finished(r[n])
  {
    RunInv(c, r, sched, n);
    assert TaskInv(c, r[n], l) && CountOk(c, r[n], l);
    OutsideZero(c.Members(l), Finished(r[n]));
  }

  // ----- When do all runs finish? -----

  /** Every leader in x has a member in x: each waits for another to come over first. */
  ghost predicate Circle(c: Config, x: set<Task>) {
    && x != {} && x <= c.tasks
    && forall l {:trigger MemberIn(c, x, l)} :: l in x ==> MemberIn(c, x, l)
  }

  ghost predicate MemberIn(c: Config, x: set<Task>, l: Task) { exists m :: m in x && c.Member(m, l) }

  /** l leads a group, but restore_pgid returns before announcing it. */
  ghost predicate SilentLeader(c: Config, l: Task) {
    l in c.tasks && c.External(l) && c.Leads(l)
  }

  /** l leads a group and belongs to the group of its session leader, which never announces itself. */
  ghost predicate StrandedLeader(c: Config, l: Task) {
    l in c.tasks && !c.External(l) && c.Leads(l) && c.Leader(l) != l && c.SessionLeader(c.Leader(l))
  }

  ghost predicate Sound(c: Config) {
    && (forall x :: !Circle(c, x))
    && (forall l :: !SilentLeader(c, l) && !StrandedLeader(c, l))
  }

  ghost predicate AllDone(c: Config, s: State)
    requires Shaped(c, s)
  {
    forall t :: t in c.tasks ==> s.pc[t] == Done
  }

  ghost predicate Stuck(c: Config, s: State)
    requires Shaped(c, s)
  {
    forall t :: !CanStep(c, s, t)
  }

  /** Whoever waits in vain for a leader to announce itself waits for one that never does. */
  lemma JoinBlocked(c: Config, s: State, t: Task)
    requires c.Valid() && Inv(c, s) && Stuck(c, s) && t in c.tasks && s.pc[t] == Join
    ensures SilentLeader(c, c.Leader(t)) || StrandedLeader(c, t)
  {
    var l := c.Leader(t);
    assert !CanStep(c, s, t) && TaskInv(c, s, t);
    assert c.TaskOk(t) && TaskInv(c, s, l) && CountOk(c, s, l) && !CanStep(c, s, l);
    OutsideZero(c.Members(l), Finished(s));
    if !c.SessionLeader(l) { assert t in c.Members(l) && c.Member(t, l); }
  }

  lemma StuckTask(c: Config, s: State, t: Task)
    requires c.Valid() && Inv(c, s) && Stuck(c, s) && t in c.tasks && s.pc[t] != Done
    requires forall l :: !SilentLeader(c, l) && !StrandedLeader(c, l)
    ensures s.pc[t] == Drain && s.cnt[t] > 0
  {
    assert !CanStep(c, s, t) && TaskInv(c, s, t) && CountOk(c, s, t);
    if s.pc[t] == Join { JoinBlocked(c, s, t); }
  }

  lemma StuckMeansCircle(c: Config, s: State)
    requires c.Valid() && Inv(c, s) && Stuck(c, s) && !AllDone(c, s)
    requires forall l :: !SilentLeader(c, l) && !StrandedLeader(c, l)
    ensures exists x :: Circle(c, x)
  {
    var x := set t | t in c.tasks && s.pc[t] != Done;
    var t :| t in c.tasks && s.pc[t] != Done;
    assert t in x;
    forall l | l in x ensures MemberIn(c, x, l) {
      StuckTask(c, s, l);
      assert CountOk(c, s, l);
      OutsideZero(c.Members(l), Finished(s));
      var m :| m in c.Members(l) && m !in Finished(s);
      assert m in x && c.Member(m, l);
    }
    assert Circle(c, x);
  }

  /** A member is done only after its leader has announced itself. */
  lemma DoneMember(c: Config, s: State, m: Task, l: Task)
    requires c.Valid() && Inv(c, s) && c.Member(m, l) && s.pc[m] == Done
    ensures l in s.announced
  {
    assert TaskInv(c, s, m) && c.TaskOk(m);
  }

  lemma SilentBlocks(c: Config, s: State, l: Task)
    requires c.Valid() && Inv(c, s) && SilentLeader(c, l)
    ensures !AllDone(c, s)
  {
    var m :| c.Member(m, l);
    assert TaskInv(c, s, l);
    if s.pc[m] == Done { DoneMember(c, s, m, l); }
  }

  lemma StrandedBlocks(c: Config, s: State, l: Task)
    requires c.Valid() && Inv(c, s) && StrandedLeader(c, l)
    ensures !AllDone(c, s)
  {
    var m :| c.Member(m, l);
    assert TaskInv(c, s, l) && c.TaskOk(l) && TaskInv(c, s, c.Leader(l));
    if s.pc[m] == Done { DoneMember(c, s, m, l); }
  }

  ghost predicate Blocked(s: State, x: set<Task>) {
    forall t :: t in x ==> t in s.pc && !Past(s.pc[t])
  }

  lemma CircleOwes(c: Config, s: State, t: Task, x: set<Task>)
    requires Inv(c, s) && Circle(c, x) && Blocked(s, x) && t in x && t in c.tasks
    ensures TaskInv(c, s, t) && s.cnt[t] != 0
  {
    assert TaskInv(c, s, t) && CountOk(c, s, t) && MemberIn(c, x, t);
    var m :| m in x && c.Member(m, t);
    OutsideZero(c.Members(t), Finished(s));
    assert m in c.Members(t) && m !in Finished(s);
  }

  lemma CircleStep(c: Config, s: State, s': State, t: Task, x: set<Task>)
    requires Inv(c, s) && Next(c, s, s', t) && Circle(c, x) && Blocked(s, x) && forall u :: u in x ==> !c.External(u)
    ensures Blocked(s', x)
  {
    StepFrame(c, s, s', t);
    if t in x { CircleOwes(c, s, t, x); }
  }

  /** No task of a circle ever gets past waiting for its members. */
  lemma {:induction false} CircleBlocks(c: Config, r: seq<State>, sched: seq<Task>, n: nat, x: set<Task>)
    requires c.Valid() && Run(c, r, sched) && n < |r| && Circle(c, x) && forall t :: t in x ==> !c.External(t)
    ensures Blocked(r[n], x)
  {
    if n > 0 {
      CircleBlocks(c, r, sched, n - 1, x);
      RunInv(c, r, sched, n - 1);
      RunNext(c, r, sched, n - 1);
      CircleStep(c, r[n - 1], r[n], sched[n - 1], x);
    }
  }

  lemma CircleInside(c: Config, x: set<Task>)
    requires Circle(c, x) && forall l :: !SilentLeader(c, l)
    ensures forall t :: t in x ==> !c.External(t)
  {
    forall t | t in x ensures !c.External(t) {
      assert MemberIn(c, x, t);
      var m :| m in x && c.Member(m, t);
      assert c.Leads(t) && !SilentLeader(c, t);
    }
  }

  /** In an unsound configuration no run brings all tasks through. */
  lemma UnsoundNeverFinishes(c: Config, r: seq<State>, sched: seq<Task>, n: nat)
    requires c.Valid() && Run(c, r, sched) && n < |r| && !Sound(c)
    ensures Shaped(c, r[n]) && !AllDone(c, r[n])
  {
    RunInv(c, r, sched, n);
    if l :| SilentLeader(c, l) {
      SilentBlocks(c, r[n], l);
    } else if l :| StrandedLeader(c, l) {
      StrandedBlocks(c, r[n], l);
    } else {
      var x :| Circle(c, x);
      CircleInside(c, x);
      CircleBlocks(c, r, sched, n, x);
      var t :| t in x;
      assert !Past(r[n].pc[t]);
    }
  }

  /** In a sound configuration a run that cannot go on has put every task into its group. */
  lemma SoundFinishes(c: Config, r: seq<State>, sched: seq<Task>)
    requires c.Valid() && Run(c, r, sched) && Sound(c)
    requires Shaped(c, r[|sched|]) && Stuck(c, r[|sched|])
    ensures AllDone(c, r[|sched|])
    ensures forall t :: t in c.tasks && !c.External(t) ==> r[|sched|].pgid[t] == c.Leader(t)
  {
    var s := r[|sched|];
    RunInv(c, r, sched, |sched|);
    if !AllDone(c, s) { StuckMeansCircle(c, s); }
    forall t | t in c.tasks && !c.External(t) ensures s.pgid[t] == c.Leader(t) { assert TaskInv(c, s, t); }
  }

  // ----- Every run ends -----

  ghost function Rank(pc: Pc): nat {
    match pc
    case Start => 7
    case Own => 6
    case Announce => 5
    case Drain => 4
    case Join => 3
    case Enter => 2
    case Leave => 1
    case Done => 0
  }

  ghost function Ranks(s: State): map<Task, nat> { map t | t in s.pc :: Rank(s.pc[t]) }

  lemma RanksUpdate(s: State, s': State, t: Task)
    requires t in s.pc && s'.pc.Keys == s.pc.Keys && forall u :: u in s.pc && u != t ==> s'.pc[u] == s.pc[u]
    ensures Ranks(s') == Ranks(s)[t := Rank(s'.pc[t])]
  {
    var m, m' := Ranks(s), Ranks(s');
    assert m'.Keys == m.Keys;
  }

  lemma StepDecreases(c: Config, s: State, s': State, t: Task)
    requires Next(c, s, s', t)
    ensures Sum(Ranks(s')) < Sum(Ranks(s))
  {
    StepFrame(c, s, s', t);
    StepRank(c, s, s', t);
    RanksUpdate(s, s', t);
    SumUpdate(Ranks(s), t, Rank(s'.pc[t]));
  }

  lemma StepAt(c: Config, r: seq<State>, sched: seq<Task>, r': seq<State>, sched': seq<Task>, i: nat)
    requires Run(c, r, sched) && |r'| == |r| + 1 && r' == r + [r'[|r|]]
    requires |sched'| == |sched| + 1 && sched' == sched + [sched'[|sched|]] && i < |sched'|
    requires Next(c, r[|sched|], r'[|r|], sched'[|sched|])
    ensures Next(c, r'[i], r'[i + 1], sched'[i])
  {
    if i < |sched| {
      assert r'[i] == r[i] && r'[i + 1] == r[i + 1] && sched'[i] == sched[i];
    } else {
      assert r'[i] == r[|sched|];
    }
  }

  lemma RunExtends(c: Config, r: seq<State>, sched: seq<Task>, r': seq<State>, sched': seq<Task>)
    requires Run(c, r, sched) && |r'| == |r| + 1 && r' == r + [r'[|r|]]
    requires |sched'| == |sched| + 1 && sched' == sched + [sched'[|sched|]]
    requires Next(c, r[|sched|], r'[|r|], sched'[|sched|])
    ensures Run(c, r', sched')
  {
    forall i | 0 <= i < |sched'| ensures Next(c, r'[i], r'[i + 1], sched'[i]) {
      StepAt(c, r, sched, r', sched', i);
    }
    assert r'[0] == r[0];
  }

  lemma OneMore(c: Config, r: seq<State>, sched: seq<Task>, t: Task) returns (r': seq<State>, sched': seq<Task>)
    requires c.Valid() && Run(c, r, sched) && Shaped(c, r[|sched|]) && CanStep(c, r[|sched|], t)
    ensures Run(c, r', sched') && r <= r' && Sum(Ranks(r'[|sched'|])) < Sum(Ranks(r[|sched|]))
  {
    var s' := Step(c, r[|sched|], t).value;
    r', sched' := r + [s'], sched + [t];
    StepDecreases(c, r[|sched|], s', t);
    RunExtends(c, r, sched, r', sched');
  }

  lemma RunShaped(c: Config, r: seq<State>, sched: seq<Task>)
    requires c.Valid() && Run(c, r, sched)
    ensures Shaped(c, r[|sched|])
  {
    RunInv(c, r, sched, |sched|);
  }

  /** Any run can be continued to one that cannot go on. */
  lemma {:induction false} Continue(c: Config, r: seq<State>, sched: seq<Task>) returns (r': seq<State>, sched': seq<Task>)
    requires c.Valid() && Run(c, r, sched)
    ensures Run(c, r', sched') && Shaped(c, r'[|sched'|]) && Stuck(c, r'[|sched'|]) && r <= r'
    decreases Sum(Ranks(r[|sched|]))
  {
    RunShaped(c, r, sched);
    if t :| CanStep(c, r[|sched|], t) {
      r', sched' := OneMore(c, r, sched, t);
      r', sched' := Continue(c, r', sched');
    } else {
      r', sched' := r, sched;
    }
  }

  /** All tasks can be brought into their groups exactly when the configuration is sound; then every run does it. */
  lemma FinishesExactlyWhenSound(c: Config, s: State)
    requires c.Valid() && Initial(c, s)
    ensures Sound(c) <==> exists r, sched :: Run(c, r, sched) && r[0] == s && Shaped(c, r[|sched|]) && AllDone(c, r[|sched|])
  {
    if Sound(c) {
      assert Run(c, [s], []);
      var r, sched := Continue(c, [s], []);
      SoundFinishes(c, r, sched);
      assert r[0] == [s][0] == s;
    } else {
      forall r, sched | Run(c, r, sched) && r[0] == s && Shaped(c, r[|sched|])
        ensures !AllDone(c, r[|sched|])
      {
        UnsoundNeverFinishes(c, r, sched, |sched|);
      }
    }
  }

  /** Session leader 1, task 2 in its group leading a group of its own, task 3 in the group of 2: no circle, yet 2 is stranded. */
  lemma StrandedExample(c: Config)
    requires c == Config({1, 2, 3}, map[1 := 1, 2 := 1, 3 := 2], {1}, {}, map[1 := 1, 2 := 1, 3 := 1])
    ensures c.Valid() && StrandedLeader(c, 2) && !Sound(c) && forall x :: !Circle(c, x)
  {
    assert c.Member(3, 2);
    var l := 2;
    assert StrandedLeader(c, l);
    forall x ensures !Circle(c, x) {
      assert !MemberIn(c, x, 1) && !MemberIn(c, x, 3);
      assert MemberIn(c, x, 2) ==> 3 in x;
      assert x <= c.tasks && x != {} ==> 1 in x || 2 in x || 3 in x;
    }
  }
}
