/**
 Restoring descriptors from many tasks at once (criu/files.c).

 Every open file description is opened by one task, the owner of the first entry
 ("master") in the description's list of users, and handed to the other entries
 ("slaves"): to those of the same task by dup2, to those of other tasks as a datagram in
 the receiver's inbox, followed by setting the receiver's event bit.  A task repeats passes
 over its entries and sleeps on its event bit when a pass made no progress.

 The tasks run concurrently.  `Step` is one indivisible action of one task; a run picks any
 task at every step.  In particular sending a datagram and setting the event bit are two steps.
 */
module DescriptorHandOut {
  import opened FiniteSums
  import opened Wrappers

  type Task = nat
  type Entry = nat
  type Desc = nat

  /** The collected image: which entries a task has, which entries use a description. */
  datatype Layout = Layout(
    tasks: set<Task>,
    fds: Task -> seq<Entry>,
    users: Desc -> seq<Entry>,
    owner: Entry -> Task,
    desc: Entry -> Desc,
    fd: Entry -> nat)
  {
    ghost function Users(f: Entry): seq<Entry> { users(desc(f)) }

    ghost function Master(f: Entry): Entry {
      if Users(f) == [] then f else Users(f)[0]
    }

    ghost predicate Has(f: Entry) {
      owner(f) in tasks && f in fds(owner(f))
    }

    ghost predicate TaskOk(t: Task) {
      forall f :: f in fds(t) ==> owner(f) == t
    }

    /** A task's entries are distinct and have distinct descriptor numbers. */
    ghost predicate NumbersOk(t: Task) {
      && (forall i, j :: 0 <= i < j < |fds(t)| ==> fds(t)[i] != fds(t)[j])
      && (forall f, g :: f in fds(t) && g in fds(t) && fd(f) == fd(g) ==> f == g)
    }

    ghost predicate EntryOk(f: Entry) {
      f in Users(f) && forall g :: g in Users(f) ==> Has(g) && desc(g) == desc(f)
    }

    ghost predicate UsersOk(f: Entry) {
      forall i, j :: 0 <= i < j < |Users(f)| ==> Users(f)[i] != Users(f)[j]
    }

    ghost predicate Valid() {
      && (forall t {:trigger TaskOk(t)} :: t in tasks ==> TaskOk(t))
      && (forall t {:trigger NumbersOk(t)} :: t in tasks ==> NumbersOk(t))
      && (forall f {:trigger EntryOk(f)} :: Has(f) ==> EntryOk(f))
      && (forall f {:trigger UsersOk(f)} :: Has(f) ==> UsersOk(f))
    }
  }

  datatype Msg = Msg(entry: Entry, desc: Desc)

  /** Where a task stands in open_fdinfos. */
  datatype Pc =
    | PassStart
    | Visit(k: nat, progress: bool, again: bool)    // about to open entry k of the list
    | Receive(k: nat, progress: bool, again: bool)  // draining the inbox in search of slave entry k
    | Serve(k: nat, again: bool, j: nat)            // handing master entry k to its user j
    | Signal(k: nat, again: bool, j: nat)           // datagram for user j sent, its event bit not yet set
    | Waiting
    | Woken
    | Done

  datatype State = State(
    pc: map<Task, Pc>,
    event: set<Task>,
    inbox: map<Task, seq<Msg>>,
    received: set<Entry>,
    restored: set<Entry>,
    table: map<Entry, Desc>,  // the description now standing at the entry's descriptor number
    sent: set<Entry>)         // history: the slaves that have been handed their description
  {
    ghost function Inbox(t: Task): seq<Msg> {
      if t in inbox then inbox[t] else []
    }

    ghost function At(t: Task, p: Pc): State {
      this.(pc := pc[t := p])
    }
  }

  ghost predicate Initial(l: Layout, s: State) {
    && s.pc.Keys == l.tasks
    && (forall t :: t in l.tasks ==> s.pc[t] == PassStart && s.Inbox(t) == [])
    && s.received == {} && s.restored == {} && s.table == map[] && s.sent == {}
  }

  ghost predicate PcOk(l: Layout, t: Task, pc: Pc) {
    match pc
    case Visit(k, _, _) => k <= |l.fds(t)|
    case Receive(k, _, _) => k < |l.fds(t)|
    case Serve(k, _, j) => k < |l.fds(t)| && j <= |l.Users(l.fds(t)[k])|
    case Signal(k, _, j) => k < |l.fds(t)| && j < |l.Users(l.fds(t)[k])|
    case _ => true
  }

  /** The next action of task t; None when t sleeps with its event bit clear or is finished. */
  ghost function Step(l: Layout, s: State, t: Task): Option<State>
    requires t in s.pc && PcOk(l, t, s.pc[t])
  {
    match s.pc[t]
    case PassStart => Some(s.At(t, Visit(0, false, false)).(event := s.event - {t}))
    case Visit(k, progress, again) =>
      Some(if k == |l.fds(t)| then EndPass(s, t, progress, again) else VisitEntry(l, s, t, k, progress, again))
    case Receive(k, progress, again) => Some(ReceiveOne(l, s, t, k, progress, again))
    case Serve(k, again, j) =>
      Some(if j == |l.Users(l.fds(t)[k])|
           then s.At(t, Visit(k + 1, true, again)).(restored := s.restored + {l.fds(t)[k]})
           else ServeOne(l, s, t, k, again, j))
    case Signal(k, again, j) =>
      Some(s.At(t, Serve(k, again, j + 1)).(event := s.event + {l.owner(l.Users(l.fds(t)[k])[j])}))
    case Waiting => if t in s.event then Some(s.At(t, Woken)) else None
    case Woken => Some(s.At(t, PassStart).(event := s.event - {t}))
    case Done => None
  }

  ghost function EndPass(s: State, t: Task, progress: bool, again: bool): State {
    s.At(t, if progress then PassStart else if again then Waiting else Done)
  }

  /** open_fd on entry k; restored entries have left the list. */
  ghost function VisitEntry(l: Layout, s: State, t: Task, k: nat, progress: bool, again: bool): State
    requires k < |l.fds(t)|
  {
    var f := l.fds(t)[k];
    if f in s.restored then s.At(t, Visit(k + 1, progress, again))
    else if f == l.Master(f) then s.At(t, Serve(k, again, 0)).(table := s.table[f := l.desc(f)])
    else if f in s.received then s.At(t, Visit(k + 1, true, again)).(restored := s.restored + {f})
    else s.At(t, Receive(k, progress, again))
  }

  /** One round of the loop of recv_fd_from_peer. */
  ghost function ReceiveOne(l: Layout, s: State, t: Task, k: nat, progress: bool, again: bool): State
    requires k < |l.fds(t)|
  {
    if s.Inbox(t) == [] then s.At(t, Visit(k + 1, progress, true))
    else
      var m := s.Inbox(t)[0];
      var found := m.entry == l.fds(t)[k];
      s.At(t, if found then Visit(k + 1, true, again) else Receive(k, progress, again)).
        (inbox := s.inbox[t := s.Inbox(t)[1..]],
         table := s.table[m.entry := m.desc],
         received := s.received + {m.entry},
         restored := if found then s.restored + {m.entry} else s.restored)
  }

  /** One round of the loop of serve_out_fd. */
  ghost function ServeOne(l: Layout, s: State, t: Task, k: nat, again: bool, j: nat): State
    requires k < |l.fds(t)| && j < |l.Users(l.fds(t)[k])|
  {
    var f := l.fds(t)[k];
    var d := l.desc(f);
    var g := l.Users(f)[j];
    if l.owner(g) != t then
      s.At(t, Signal(k, again, j)).
        (inbox := s.inbox[l.owner(g) := s.Inbox(l.owner(g)) + [Msg(g, d)]], sent := s.sent + {g})
    else if l.fd(g) == l.fd(f) then
      s.At(t, Serve(k, again, j + 1))
    else
      s.At(t, Serve(k, again, j + 1)).
        (table := s.table[g := d], received := s.received + {g}, sent := s.sent + {g})
  }

  // ----- The invariant of all reachable states -----

  /** Task u sits between the send of a datagram to t and setting t's event bit. */
  ghost predicate Signalling(l: Layout, s: State, u: Task, t: Task) {
    u in s.pc && s.pc[u].Signal? && PcOk(l, u, s.pc[u]) && l.owner(l.Users(l.fds(u)[s.pc[u].k])[s.pc[u].j]) == t
  }

  /** The event bit of t is set or about to be set. */
  ghost predicate Alarmed(l: Layout, s: State, t: Task) {
    t in s.event || exists u :: Signalling(l, s, u, t)
  }

  ghost predicate InInbox(q: seq<Msg>, f: Entry) {
    exists i :: 0 <= i < |q| && q[i].entry == f
  }

  ghost predicate Slave(l: Layout, f: Entry) {
    l.Has(f) && f != l.Master(f)
  }

  /** Entry f has been handed over but not yet restored. */
  ghost predicate Available(l: Layout, s: State, f: Entry) {
    f !in s.restored && (f in s.received || InInbox(s.Inbox(l.owner(f)), f))
  }

  /** The number of users of master f that its owner has served so far; -1 when it is not serving f. */
  ghost function ServedTo(l: Layout, s: State, f: Entry): int {
    var t := l.owner(f);
    if !(t in s.pc && PcOk(l, t, s.pc[t])) then -1
    else match s.pc[t]
      case Serve(k, _, j) => if l.fds(t)[k] == f then j else -1
      case Signal(k, _, j) => if l.fds(t)[k] == f then j + 1 else -1
      case _ => -1
  }

  /** A slave is handed its own description at most once; a master is restored once all slaves have theirs. */
  ghost predicate EntryInv(l: Layout, s: State, f: Entry) {
    && (f in s.table ==> s.table[f] == l.desc(f))
    && if f != l.Master(f) then
         && (InInbox(s.Inbox(l.owner(f)), f) <==> f in s.sent && f !in s.received)
         && (f in s.received ==> f in s.sent) && (f in s.received <==> f in s.table)
         && (f in s.restored ==> f in s.received)
         && (f in s.sent ==> l.Master(f) in s.table)
       else
         && f !in s.sent && f !in s.received
         && (f in s.restored ==> f in s.table && forall g :: g in l.Users(f) && g != f ==> g in s.sent)
         && (f in s.table && f !in s.restored ==> ServedTo(l, s, f) >= 0)
         && (ServedTo(l, s, f) >= 0 ==>
               forall i :: 0 <= i < |l.Users(f)| && l.Users(f)[i] != f ==>
                 (l.Users(f)[i] in s.sent <==> i < ServedTo(l, s, f)))
  }

  ghost predicate InboxInv(l: Layout, s: State, t: Task) {
    var q := s.Inbox(t);
    && (forall i :: 0 <= i < |q| ==> Slave(l, q[i].entry) && l.owner(q[i].entry) == t && q[i].desc == l.desc(q[i].entry))
    && (forall i, j :: 0 <= i < j < |q| ==> q[i].entry != q[j].entry)
  }

  /** What a pass knows of the entries before its cursor k. */
  ghost predicate PassFacts(l: Layout, s: State, t: Task, k: nat, again: bool)
    requires k <= |l.fds(t)|
  {
    && (forall i :: 0 <= i < k && l.fds(t)[i] !in s.restored ==> again && Slave(l, l.fds(t)[i]))
    && (again ==> exists i :: 0 <= i < k && l.fds(t)[i] !in s.restored)
  }

  /** No wake-up is lost: what became available behind the cursor comes with another pass. */
  ghost predicate NothingMissed(l: Layout, s: State, t: Task, k: nat)
    requires k <= |l.fds(t)|
  {
    Alarmed(l, s, t) || forall i :: 0 <= i < k ==> !Available(l, s, l.fds(t)[i])
  }

  ghost predicate TaskInv(l: Layout, s: State, t: Task) {
    && t in s.pc && PcOk(l, t, s.pc[t])
    && match s.pc[t]
       case Visit(k, progress, again) =>
         PassFacts(l, s, t, k, again) && (progress || NothingMissed(l, s, t, k))
       case Receive(k, progress, again) =>
         && PassFacts(l, s, t, k, again) && (progress || NothingMissed(l, s, t, k))
         && Slave(l, l.fds(t)[k]) && l.fds(t)[k] !in s.received && l.fds(t)[k] !in s.restored
       case Serve(k, again, _) => PassFacts(l, s, t, k, again) && OpenMaster(l, s, l.fds(t)[k])
       case Signal(k, again, j) =>
         && PassFacts(l, s, t, k, again) && OpenMaster(l, s, l.fds(t)[k])
         && l.owner(l.Users(l.fds(t)[k])[j]) != t
       case Waiting => PassFacts(l, s, t, |l.fds(t)|, true) && NothingMissed(l, s, t, |l.fds(t)|)
       case Woken => t in s.event
       case Done => forall f :: f in l.fds(t) ==> f in s.restored
       case PassStart => true
  }

  ghost predicate OpenMaster(l: Layout, s: State, f: Entry) {
    f == l.Master(f) && f !in s.restored && f in s.table
  }

  ghost predicate Inv(l: Layout, s: State) {
    && s.pc.Keys == l.tasks
    && (forall t {:trigger TaskInv(l, s, t)} :: t in l.tasks ==> TaskInv(l, s, t))
    && (forall t {:trigger InboxInv(l, s, t)} :: t in l.tasks ==> InboxInv(l, s, t))
    && (forall f {:trigger EntryInv(l, s, f)} :: l.Has(f) ==> EntryInv(l, s, f))
  }

  lemma InitialInv(l: Layout, s: State)
    requires l.Valid() && Initial(l, s)
    ensures Inv(l, s)
  {
    forall f | l.Has(f) ensures EntryInv(l, s, f) { }
  }

  // ----- What a step of one task leaves alone -----

  /** Nothing about task u, its entries and its inbox differs between s and s'. */
  ghost predicate SameFor(l: Layout, s: State, s': State, u: Task) {
    && (u in s.pc <==> u in s'.pc) && (u in s.pc ==> s.pc[u] == s'.pc[u])
    && SameEntries(l, s, s', u)
  }

  ghost predicate SameEntries(l: Layout, s: State, s': State, u: Task) {
    && s.Inbox(u) == s'.Inbox(u)
    && (forall f :: l.owner(f) == u ==> (f in s.received <==> f in s'.received) && (f in s.restored <==> f in s'.restored))
  }

  /** Alarms of u survive any step that keeps its event bit and does not finish a signal. */
  lemma AlarmFrame(l: Layout, s: State, s': State, t: Task, u: Task)
    requires t in s.pc && !s.pc[t].Signal?
    requires forall v :: v in s.pc && v != t ==> v in s'.pc && s'.pc[v] == s.pc[v]
    requires u in s.event ==> u in s'.event
    ensures Alarmed(l, s, u) ==> Alarmed(l, s', u)
  {
    if Alarmed(l, s, u) && u !in s.event {
      var v :| Signalling(l, s, v, u);
      assert Signalling(l, s', v, u);
    }
  }

  lemma PassFrame(l: Layout, s: State, s': State, u: Task, k: nat, again: bool)
    requires k <= |l.fds(u)| && l.TaskOk(u) && SameEntries(l, s, s', u) && PassFacts(l, s, u, k, again)
    ensures PassFacts(l, s', u, k, again)
  {
    assert forall i :: 0 <= i < k ==> l.owner(l.fds(u)[i]) == u;
  }

  lemma MissedFrame(l: Layout, s: State, s': State, u: Task, k: nat)
    requires k <= |l.fds(u)| && l.TaskOk(u) && SameEntries(l, s, s', u) && NothingMissed(l, s, u, k)
    requires Alarmed(l, s, u) ==> Alarmed(l, s', u)
    ensures NothingMissed(l, s', u, k)
  {
    assert forall i :: 0 <= i < k ==> l.owner(l.fds(u)[i]) == u;
  }

  lemma OtherTask(l: Layout, s: State, s': State, u: Task)
    requires l.Valid() && TaskInv(l, s, u) && u in l.tasks && SameFor(l, s, s', u)
    requires (Alarmed(l, s, u) ==> Alarmed(l, s', u)) && (u in s.event ==> u in s'.event)
    requires forall f :: f in s.table ==> f in s'.table
    ensures TaskInv(l, s', u)
  {
    assert l.TaskOk(u);
    match s.pc[u]
    case Visit(k, progress, again) =>
      PassFrame(l, s, s', u, k, again);
      if !progress { MissedFrame(l, s, s', u, k); }
    case Receive(k, progress, again) =>
      PassFrame(l, s, s', u, k, again);
      if !progress { MissedFrame(l, s, s', u, k); }
    case Serve(k, again, _) => PassFrame(l, s, s', u, k, again);
    case Signal(k, again, _) => PassFrame(l, s, s', u, k, again);
    case Waiting =>
      PassFrame(l, s, s', u, |l.fds(u)|, true);
      MissedFrame(l, s, s', u, |l.fds(u)|);
    case _ =>
  }

  ghost predicate SameEntry(l: Layout, s: State, s': State, f: Entry) {
    && (f in s.table <==> f in s'.table) && (f in s.table ==> s'.table[f] == s.table[f])
    && (l.Master(f) in s.table ==> l.Master(f) in s'.table)
    && (InInbox(s.Inbox(l.owner(f)), f) <==> InInbox(s'.Inbox(l.owner(f)), f))
    && (f in s.received <==> f in s'.received) && (f in s.restored <==> f in s'.restored)
    && (f in s.sent <==> f in s'.sent)
    && (f == l.Master(f) ==>
          && (forall g :: g in l.Users(f) ==> (g in s.sent <==> g in s'.sent))
          && ServedTo(l, s, f) == ServedTo(l, s', f))
  }

  lemma OtherEntry(l: Layout, s: State, s': State, f: Entry)
    requires EntryInv(l, s, f) && SameEntry(l, s, s', f)
    ensures EntryInv(l, s', f)
  {
    if f == l.Master(f) {
      forall i | 0 <= i < |l.Users(f)| ensures l.Users(f)[i] in s'.sent <==> l.Users(f)[i] in s.sent {
        assert l.Users(f)[i] in l.Users(f);
      }
    }
  }

  /** Steps that only move t within or between passes, away from any serving. */
  ghost predicate Quiet(s: State, s': State, t: Task) {
    && t in s.pc && t in s'.pc && s' == s.(pc := s'.pc, event := s'.event) && s'.pc == s.pc[t := s'.pc[t]]
    && !s.pc[t].Serve? && !s.pc[t].Signal? && !s'.pc[t].Serve? && !s'.pc[t].Signal?
    && (forall u :: u in s.event && u != t ==> u in s'.event)
  }

  lemma QuietTask(l: Layout, s: State, s': State, t: Task, u: Task)
    requires l.Valid() && TaskInv(l, s, u) && u in l.tasks && Quiet(s, s', t) && TaskInv(l, s', t)
    ensures TaskInv(l, s', u)
  {
    if u != t {
      AlarmFrame(l, s, s', t, u);
      OtherTask(l, s, s', u);
    }
  }

  lemma QuietEntry(l: Layout, s: State, s': State, t: Task, f: Entry)
    requires EntryInv(l, s, f) && Quiet(s, s', t)
    ensures EntryInv(l, s', f)
  {
    assert SameEntry(l, s, s', f);
    OtherEntry(l, s, s', f);
  }

  lemma QuietStep(l: Layout, s: State, s': State, t: Task)
    requires l.Valid() && Inv(l, s) && t in l.tasks && Quiet(s, s', t) && TaskInv(l, s', t)
    ensures Inv(l, s')
  {
    forall u | u in l.tasks ensures TaskInv(l, s', u) {
      assert TaskInv(l, s, u);
      QuietTask(l, s, s', t, u);
    }
    forall u | u in l.tasks ensures InboxInv(l, s', u) {
      assert InboxInv(l, s, u);
    }
    forall f | l.Has(f) ensures EntryInv(l, s', f) {
      assert EntryInv(l, s, f);
      QuietEntry(l, s, s', t, f);
    }
  }

  lemma EndOfPass(l: Layout, s: State, t: Task)
    requires l.Valid() && Inv(l, s) && t in l.tasks && TaskInv(l, s, t)
    requires s.pc[t].PassStart? || s.pc[t].Waiting? || s.pc[t].Woken? || (s.pc[t].Visit? && s.pc[t].k == |l.fds(t)|)
    ensures Step(l, s, t).Some? ==> Inv(l, Step(l, s, t).value)
  {
    if Step(l, s, t).Some? {
      var s' := Step(l, s, t).value;
      AlarmFrame(l, s, s'.(event := s.event), t, t);
      assert TaskInv(l, s', t);
      QuietStep(l, s, s', t);
    }
  }

  /** A step of t leaves what other tasks know of their own entries alone. */
  lemma Assemble(l: Layout, s: State, s': State, t: Task)
    requires l.Valid() && Inv(l, s) && t in l.tasks && t in s'.pc && s'.pc == s.pc[t := s'.pc[t]] && !s.pc[t].Signal?
    requires s'.event == s.event && forall f :: f in s.table ==> f in s'.table
    requires forall u :: u in l.tasks && u != t ==> SameEntries(l, s, s', u)
    requires TaskInv(l, s', t) && InboxInv(l, s', t) && forall h :: l.Has(h) ==> EntryInv(l, s', h)
    ensures Inv(l, s')
  {
    forall u | u in l.tasks && u != t ensures TaskInv(l, s', u) {
      AlarmFrame(l, s, s', t, u);
      assert TaskInv(l, s, u);
      OtherTask(l, s, s', u);
    }
    forall u | u in l.tasks && u != t ensures InboxInv(l, s', u) {
      assert InboxInv(l, s, u);
    }
  }

  /** Entry k of t is slave and still missing, or is restored: the cursor moves past it. */
  lemma Advance(l: Layout, s: State, s': State, t: Task, k: nat, again: bool, again': bool)
    requires l.Valid() && t in l.tasks && k < |l.fds(t)| && PassFacts(l, s, t, k, again)
    requires s'.restored == s.restored || s'.restored == s.restored + {l.fds(t)[k]}
    requires l.fds(t)[k] in s'.restored ==> again' == again
    requires l.fds(t)[k] !in s'.restored ==> again' && Slave(l, l.fds(t)[k])
    ensures PassFacts(l, s', t, k + 1, again')
  {
    assert l.NumbersOk(t);
    if again {
      var i :| 0 <= i < k && l.fds(t)[i] !in s.restored;
      assert l.fds(t)[i] !in s'.restored;
    }
  }

  lemma ReceiveNothingTask(l: Layout, s: State, s': State, t: Task, k: nat, progress: bool, again: bool)
    requires l.Valid() && t in l.tasks && TaskInv(l, s, t) && s.pc[t] == Receive(k, progress, again) && s.Inbox(t) == []
    requires s' == s.At(t, Visit(k + 1, progress, true))
    ensures TaskInv(l, s', t)
  {
    assert l.TaskOk(t) && l.owner(l.fds(t)[k]) == t;
    AlarmFrame(l, s, s', t, t);
    Advance(l, s, s', t, k, again, true);
    assert !Available(l, s, l.fds(t)[k]);
  }

  lemma ReceiveNothing(l: Layout, s: State, t: Task)
    requires l.Valid() && Inv(l, s) && t in l.tasks && TaskInv(l, s, t)
    requires s.pc[t].Receive? && s.Inbox(t) == []
    ensures Inv(l, Step(l, s, t).value)
  {
    var Receive(k, progress, again) := s.pc[t];
    var s' := s.At(t, Visit(k + 1, progress, true));
    assert Step(l, s, t) == Some(s');
    ReceiveNothingTask(l, s, s', t, k, progress, again);
    QuietStep(l, s, s', t);
  }

  lemma PassedTask(l: Layout, s: State, s': State, t: Task, k: nat, progress: bool, again: bool)
    requires l.Valid() && t in l.tasks && TaskInv(l, s, t) && s.pc[t] == Visit(k, progress, again)
    requires k < |l.fds(t)| && l.fds(t)[k] in s.restored && s' == s.At(t, Visit(k + 1, progress, again))
    ensures TaskInv(l, s', t)
  {
    AlarmFrame(l, s, s', t, t);
    Advance(l, s, s', t, k, again, again);
  }

  lemma MissingTask(l: Layout, s: State, s': State, t: Task, k: nat, progress: bool, again: bool)
    requires l.Valid() && t in l.tasks && TaskInv(l, s, t) && s.pc[t] == Visit(k, progress, again) && k < |l.fds(t)|
    requires Slave(l, l.fds(t)[k]) && l.fds(t)[k] !in s.restored && l.fds(t)[k] !in s.received
    requires s' == s.At(t, Receive(k, progress, again))
    ensures TaskInv(l, s', t)
  {
    AlarmFrame(l, s, s', t, t);
  }

  lemma VisitQuiet(l: Layout, s: State, t: Task)
    requires l.Valid() && Inv(l, s) && t in l.tasks && TaskInv(l, s, t)
    requires s.pc[t].Visit? && s.pc[t].k < |l.fds(t)|
    requires var f := l.fds(t)[s.pc[t].k]; f in s.restored || (f != l.Master(f) && f !in s.received)
    ensures Inv(l, Step(l, s, t).value)
  {
    var s' := Step(l, s, t).value;
    var Visit(k, progress, again) := s.pc[t];
    if l.fds(t)[k] in s.restored {
      PassedTask(l, s, s', t, k, progress, again);
    } else {
      assert l.TaskOk(t) && l.Has(l.fds(t)[k]);
      MissingTask(l, s, s', t, k, progress, again);
    }
    QuietStep(l, s, s', t);
  }

  /** Before a master is opened none of its users has been served. */
  lemma NoneServed(l: Layout, s: State, f: Entry)
    requires l.Valid() && Inv(l, s) && l.Has(f) && f == l.Master(f) && f !in s.table
    ensures forall h :: h in l.Users(f) && h != f ==> h !in s.sent
  {
    forall h | h in l.Users(f) && h != f ensures h !in s.sent {
      assert l.EntryOk(f);
      assert l.Has(h) && EntryInv(l, s, h) && l.Master(h) == f;
    }
  }

  /** What opening master f does to entry h. */
  lemma MasterOpened(l: Layout, s: State, s': State, t: Task, k: nat, again: bool, f: Entry, h: Entry)
    requires t in s.pc && s.pc[t].Visit? && k < |l.fds(t)| && f == l.fds(t)[k] == l.Master(f) && l.owner(f) == t
    requires s' == s.At(t, Serve(k, again, 0)).(table := s.table[f := l.desc(f)])
    requires EntryInv(l, s, h) && f !in s.restored && forall g :: g in l.Users(f) && g != f ==> g !in s.sent
    ensures EntryInv(l, s', h)
  {
    if h == f {
      assert ServedTo(l, s', f) == 0;
    } else {
      OtherEntry(l, s, s', h);
    }
  }

  lemma MasterTask(l: Layout, s: State, s': State, t: Task, k: nat, again: bool)
    requires TaskInv(l, s, t) && s.pc[t].Visit? && s.pc[t].k == k && s.pc[t].again == again && k < |l.fds(t)|
    requires l.fds(t)[k] !in s.restored && l.fds(t)[k] == l.Master(l.fds(t)[k])
    requires s' == s.At(t, Serve(k, again, 0)).(table := s.table[l.fds(t)[k] := l.desc(l.fds(t)[k])])
    ensures TaskInv(l, s', t)
  {
    assert PassFacts(l, s', t, k, again);
  }

  lemma VisitMaster(l: Layout, s: State, t: Task)
    requires l.Valid() && Inv(l, s) && t in l.tasks && TaskInv(l, s, t)
    requires s.pc[t].Visit? && s.pc[t].k < |l.fds(t)|
    requires var f := l.fds(t)[s.pc[t].k]; f !in s.restored && f == l.Master(f)
    ensures Inv(l, Step(l, s, t).value)
  {
    var Visit(k, _, again) := s.pc[t];
    var f := l.fds(t)[k];
    var s' := s.At(t, Serve(k, again, 0)).(table := s.table[f := l.desc(f)]);
    assert Step(l, s, t) == Some(s');
    assert l.TaskOk(t) && l.owner(f) == t && l.Has(f) && EntryInv(l, s, f);
    NoneServed(l, s, f);
    forall h | l.Has(h) ensures EntryInv(l, s', h) {
      assert EntryInv(l, s, h);
      MasterOpened(l, s, s', t, k, again, f, h);
    }
    assert InboxInv(l, s, t);
    MasterTask(l, s, s', t, k, again);
    Assemble(l, s, s', t);
  }

  /** What taking a slave that was received earlier does to entry h. */
  lemma SlaveTaken(l: Layout, s: State, s': State, t: Task, k: nat, again: bool, f: Entry, h: Entry)
    requires t in s.pc && s.pc[t].Visit? && f != l.Master(f) && f in s.received && EntryInv(l, s, h)
    requires s' == s.At(t, Visit(k + 1, true, again)).(restored := s.restored + {f})
    ensures EntryInv(l, s', h)
  {
    if h != f { OtherEntry(l, s, s', h); }
  }

  lemma VisitReceived(l: Layout, s: State, t: Task)
    requires l.Valid() && Inv(l, s) && t in l.tasks && TaskInv(l, s, t)
    requires s.pc[t].Visit? && s.pc[t].k < |l.fds(t)|
    requires var f := l.fds(t)[s.pc[t].k]; f !in s.restored && f != l.Master(f) && f in s.received
    ensures Inv(l, Step(l, s, t).value)
  {
    var Visit(k, _, again) := s.pc[t];
    var f := l.fds(t)[k];
    var s' := s.At(t, Visit(k + 1, true, again)).(restored := s.restored + {f});
    assert Step(l, s, t) == Some(s');
    assert l.TaskOk(t) && l.owner(f) == t && l.Has(f) && EntryInv(l, s, f);
    Advance(l, s, s', t, k, again, again);
    forall h | l.Has(h) ensures EntryInv(l, s', h) {
      assert EntryInv(l, s, h);
      SlaveTaken(l, s, s', t, k, again, f, h);
    }
    assert InboxInv(l, s, t);
    Assemble(l, s, s', t);
  }

  lemma Popped(l: Layout, s: State, s': State, t: Task)
    requires s.Inbox(t) != [] && s'.Inbox(t) == s.Inbox(t)[1..] && InboxInv(l, s, t)
    ensures InboxInv(l, s', t)
    ensures forall f :: InInbox(s'.Inbox(t), f) <==> f != s.Inbox(t)[0].entry && InInbox(s.Inbox(t), f)
  {
    var q, q' := s.Inbox(t), s'.Inbox(t);
    forall f ensures InInbox(q', f) <==> f != q[0].entry && InInbox(q, f) {
      if InInbox(q', f) {
        var i :| 0 <= i < |q'| && q'[i].entry == f;
        assert q[i + 1].entry == f;
      }
      if f != q[0].entry && InInbox(q, f) {
        var i :| 0 <= i < |q| && q[i].entry == f;
        assert q'[i - 1].entry == f;
      }
    }
  }

  lemma FoundTask(l: Layout, s: State, s': State, t: Task, k: nat, again: bool)
    requires l.Valid() && t in l.tasks && TaskInv(l, s, t) && s.pc[t].Receive? && s.pc[t].k == k && s.pc[t].again == again
    requires t in s'.pc && s'.pc[t] == Visit(k + 1, true, again) && s'.restored == s.restored + {l.fds(t)[k]}
    ensures TaskInv(l, s', t)
  {
    Advance(l, s, s', t, k, again, again);
  }

  /** Moving c from the inbox to the received entries makes nothing newly available. */
  lemma NotNewlyAvailable(l: Layout, s: State, s': State, t: Task, c: Entry, k: nat)
    requires l.TaskOk(t) && k <= |l.fds(t)| && InInbox(s.Inbox(t), c) && NothingMissed(l, s, t, k)
    requires forall f :: InInbox(s'.Inbox(t), f) ==> InInbox(s.Inbox(t), f)
    requires s'.received == s.received + {c} && s'.restored == s.restored
    requires Alarmed(l, s, t) ==> Alarmed(l, s', t)
    ensures NothingMissed(l, s', t, k)
  {
    assert forall i :: 0 <= i < k ==> l.owner(l.fds(t)[i]) == t;
  }

  lemma OtherFoundTask(l: Layout, s: State, s': State, t: Task, c: Entry)
    requires l.TaskOk(t) && TaskInv(l, s, t) && s.pc[t].Receive? && s'.pc == s.pc && s'.event == s.event
    requires InInbox(s.Inbox(t), c) && c != l.fds(t)[s.pc[t].k]
    requires forall f :: InInbox(s'.Inbox(t), f) ==> InInbox(s.Inbox(t), f)
    requires s'.received == s.received + {c} && s'.restored == s.restored
    ensures TaskInv(l, s', t)
  {
    if !s.pc[t].progress {
      AlarmFrame(l, s, s', t, t);
      NotNewlyAvailable(l, s, s', t, c, s.pc[t].k);
    }
  }

  lemma ReceivePopTask(l: Layout, s: State, s': State, t: Task)
    requires l.Valid() && t in l.tasks && TaskInv(l, s, t) && InboxInv(l, s, t)
    requires s.pc[t].Receive? && s.Inbox(t) != [] && Step(l, s, t) == Some(s')
    requires forall f :: InInbox(s'.Inbox(t), f) ==> InInbox(s.Inbox(t), f)
    ensures TaskInv(l, s', t)
  {
    var c := s.Inbox(t)[0].entry;
    var k := s.pc[t].k;
    if c == l.fds(t)[k] {
      FoundTask(l, s, s', t, k, s.pc[t].again);
    } else {
      assert l.TaskOk(t) && InInbox(s.Inbox(t), c) && s'.pc == s.pc;
      OtherFoundTask(l, s, s', t, c);
    }
  }

  /** Task t takes the datagram for c out of its inbox. */
  ghost predicate Pop(l: Layout, s: State, s': State, t: Task, c: Entry) {
    && t in s.pc && t in s'.pc && s'.pc == s.pc[t := s'.pc[t]] && s.pc[t].Receive? && (s'.pc[t].Receive? || s'.pc[t].Visit?)
    && s'.event == s.event && s'.sent == s.sent && s'.received == s.received + {c} && s'.table == s.table[c := l.desc(c)]
    && (s'.restored == s.restored || s'.restored == s.restored + {c})
    && forall u :: u != t ==> s'.Inbox(u) == s.Inbox(u)
  }

  lemma PopEntry(l: Layout, s: State, s': State, t: Task, c: Entry, h: Entry)
    requires Pop(l, s, s', t, c) && l.owner(c) == t && l.Master(c) != c && InInbox(s.Inbox(t), c) && EntryInv(l, s, h)
    requires forall f :: InInbox(s'.Inbox(t), f) <==> f != c && InInbox(s.Inbox(t), f)
    ensures EntryInv(l, s', h)
  {
    if h != c { OtherEntry(l, s, s', h); }
  }

  lemma PopOthers(l: Layout, s: State, s': State, t: Task, c: Entry)
    requires Pop(l, s, s', t, c) && l.owner(c) == t
    ensures forall u :: u != t ==> SameEntries(l, s, s', u)
  {
  }

  lemma PopInv(l: Layout, s: State, s': State, t: Task, c: Entry)
    requires l.Valid() && Inv(l, s) && t in l.tasks && TaskInv(l, s', t) && InboxInv(l, s', t)
    requires Pop(l, s, s', t, c) && l.owner(c) == t && l.Master(c) != c && InInbox(s.Inbox(t), c)
    requires forall f :: InInbox(s'.Inbox(t), f) <==> f != c && InInbox(s.Inbox(t), f)
    ensures Inv(l, s')
  {
    forall h | l.Has(h) ensures EntryInv(l, s', h) {
      assert EntryInv(l, s, h);
      PopEntry(l, s, s', t, c, h);
    }
    PopOthers(l, s, s', t, c);
    Assemble(l, s, s', t);
  }

  lemma IsPop(l: Layout, s: State, s': State, t: Task)
    requires t in s.pc && PcOk(l, t, s.pc[t]) && s.pc[t].Receive? && s.Inbox(t) != [] && Step(l, s, t) == Some(s')
    requires s.Inbox(t)[0].desc == l.desc(s.Inbox(t)[0].entry)
    ensures Pop(l, s, s', t, s.Inbox(t)[0].entry) && s'.Inbox(t) == s.Inbox(t)[1..]
  {
  }

  lemma ReceivePop(l: Layout, s: State, t: Task)
    requires l.Valid() && Inv(l, s) && t in l.tasks && TaskInv(l, s, t)
    requires s.pc[t].Receive? && s.Inbox(t) != []
    ensures Inv(l, Step(l, s, t).value)
  {
    var s' := Step(l, s, t).value;
    var c := s.Inbox(t)[0].entry;
    assert InboxInv(l, s, t);
    IsPop(l, s, s', t);
    Popped(l, s, s', t);
    ReceivePopTask(l, s, s', t);
    assert InInbox(s.Inbox(t), c);
    PopInv(l, s, s', t, c);
  }

  /** What the end of serving master f does to entry h. */
  lemma ServeEndEntry(l: Layout, s: State, s': State, t: Task, k: nat, again: bool, f: Entry, h: Entry)
    requires t in s.pc && k < |l.fds(t)| && f == l.fds(t)[k] && s.pc[t] == Serve(k, again, |l.Users(f)|)
    requires f == l.Master(f) && l.owner(f) == t && f in s.table && EntryInv(l, s, h)
    requires s' == s.At(t, Visit(k + 1, true, again)).(restored := s.restored + {f})
    ensures EntryInv(l, s', h)
  {
    if h == f {
      assert ServedTo(l, s, f) == |l.Users(f)|;
    } else {
      OtherEntry(l, s, s', h);
    }
  }

  lemma ServeEnd(l: Layout, s: State, t: Task)
    requires l.Valid() && Inv(l, s) && t in l.tasks && TaskInv(l, s, t)
    requires s.pc[t].Serve? && s.pc[t].j == |l.Users(l.fds(t)[s.pc[t].k])|
    ensures Inv(l, Step(l, s, t).value)
  {
    var Serve(k, again, _) := s.pc[t];
    var f := l.fds(t)[k];
    var s' := s.At(t, Visit(k + 1, true, again)).(restored := s.restored + {f});
    assert Step(l, s, t) == Some(s');
    assert l.TaskOk(t) && l.owner(f) == t;
    Advance(l, s, s', t, k, again, again);
    forall h | l.Has(h) ensures EntryInv(l, s', h) {
      assert EntryInv(l, s, h);
      ServeEndEntry(l, s, s', t, k, again, f, h);
    }
    assert InboxInv(l, s, t);
    Assemble(l, s, s', t);
  }

  /** How the master's own entry sees one more user served. */
  lemma ServedOneMore(l: Layout, s: State, s': State, f: Entry, j: nat)
    requires l.UsersOk(f) && EntryInv(l, s, f) && f == l.Master(f) && j < |l.Users(f)|
    requires ServedTo(l, s, f) == j && ServedTo(l, s', f) == j + 1
    requires f in s.table && s'.table.Keys >= s.table.Keys && s'.table[f] == s.table[f]
    requires f !in s.restored && s'.restored == s.restored && (f in s'.received <==> f in s.received)
    requires s'.sent == if l.Users(f)[j] == f then s.sent else s.sent + {l.Users(f)[j]}
    ensures EntryInv(l, s', f)
  {
    forall i | 0 <= i < |l.Users(f)| && l.Users(f)[i] != f ensures l.Users(f)[i] in s'.sent <==> i < j + 1 {
      assert l.Users(f)[i] in s.sent <==> i < j;
    }
  }

  /** Entries other than the master f and its user g do not notice that f serves g. */
  lemma UntouchedByServe(l: Layout, s: State, s': State, f: Entry, g: Entry, h: Entry)
    requires l.Has(h) && l.EntryOk(h) && l.TaskOk(l.owner(f)) && h != f && h != g && l.Master(g) == f
    requires l.owner(f) in s.pc && l.owner(f) in s'.pc && PcOk(l, l.owner(f), s.pc[l.owner(f)])
    requires s'.pc == s.pc[l.owner(f) := s'.pc[l.owner(f)]]
    requires ServedTo(l, s, f) >= 0 && ServedTo(l, s', f) >= 0
    requires s'.received == s.received || s'.received == s.received + {g}
    requires s'.sent == s.sent || s'.sent == s.sent + {g}
    requires s'.table == s.table || (g in s'.table && s'.table == s.table[g := s'.table[g]])
    requires s'.restored == s.restored
    requires InInbox(s'.Inbox(l.owner(h)), h) <==> InInbox(s.Inbox(l.owner(h)), h)
    ensures SameEntry(l, s, s', h)
  {
    if h == l.Master(h) {
      assert g !in l.Users(h);
    }
  }

  ghost predicate Serving(l: Layout, s: State, t: Task, f: Entry, j: nat, g: Entry) {
    && t in s.pc && s.pc[t].Serve? && PcOk(l, t, s.pc[t]) && f == l.fds(t)[s.pc[t].k]
    && j == s.pc[t].j < |l.Users(f)| && g == l.Users(f)[j]
  }

  lemma ServeFacts(l: Layout, s: State, t: Task, f: Entry, j: nat, g: Entry)
    requires l.Valid() && Inv(l, s) && t in l.tasks && TaskInv(l, s, t) && Serving(l, s, t, f, j, g)
    ensures l.Has(f) && l.Has(g) && l.owner(f) == t && l.EntryOk(f) && EntryInv(l, s, f) && EntryInv(l, s, g)
    ensures f == l.Master(f) == l.Master(g) && l.desc(g) == l.desc(f) && OpenMaster(l, s, f)
    ensures ServedTo(l, s, f) == j && (g != f ==> g !in s.sent)
    ensures l.owner(g) == t ==> (g == f <==> l.fd(g) == l.fd(f))
  {
    assert l.TaskOk(t) && l.NumbersOk(t) && l.Has(f) && EntryInv(l, s, f) && l.EntryOk(f);
    assert g in l.Users(f) && EntryInv(l, s, g);
  }

  /** What serving a user of t itself does to entry h. */
  lemma ServeSelfEntry(l: Layout, s: State, s': State, t: Task, f: Entry, j: nat, g: Entry, h: Entry)
    requires l.Valid() && Inv(l, s) && t in l.tasks && TaskInv(l, s, t) && Serving(l, s, t, f, j, g)
    requires l.owner(g) == t && Step(l, s, t) == Some(s') && l.Has(h)
    ensures EntryInv(l, s', h)
  {
    ServeFacts(l, s, t, f, j, g);
    assert ServedTo(l, s', f) == j + 1;
    if h == f {
      assert l.UsersOk(f);
      ServedOneMore(l, s, s', f, j);
    } else if h != g {
      assert l.TaskOk(t) && l.EntryOk(h) && EntryInv(l, s, h);
      UntouchedByServe(l, s, s', f, g, h);
      OtherEntry(l, s, s', h);
    }
  }

  /** What it does to t and to other tasks. */
  lemma ServeSelfTask(l: Layout, s: State, s': State, t: Task, f: Entry, j: nat, g: Entry)
    requires l.Valid() && TaskInv(l, s, t) && InboxInv(l, s, t) && Serving(l, s, t, f, j, g)
    requires l.owner(g) == t && Step(l, s, t) == Some(s')
    ensures TaskInv(l, s', t) && InboxInv(l, s', t)
    ensures forall u :: u != t ==> SameEntries(l, s, s', u)
  {
    var k, again := s.pc[t].k, s.pc[t].again;
    assert s'.pc[t] == Serve(k, again, j + 1) && s'.restored == s.restored && s'.Inbox(t) == s.Inbox(t);
    assert PassFacts(l, s', t, k, again);
  }

  lemma ServeSelf(l: Layout, s: State, t: Task, f: Entry, j: nat, g: Entry)
    requires l.Valid() && Inv(l, s) && t in l.tasks && TaskInv(l, s, t) && Serving(l, s, t, f, j, g)
    requires l.owner(g) == t
    ensures Inv(l, Step(l, s, t).value)
  {
    var s' := Step(l, s, t).value;
    forall h | l.Has(h) ensures EntryInv(l, s', h) {
      ServeSelfEntry(l, s, s', t, f, j, g, h);
    }
    assert InboxInv(l, s, t);
    ServeSelfTask(l, s, s', t, f, j, g);
    Assemble(l, s, s', t);
  }

  lemma Pushed(l: Layout, s: State, s': State, u: Task, m: Msg)
    requires s'.Inbox(u) == s.Inbox(u) + [m] && InboxInv(l, s, u) && !InInbox(s.Inbox(u), m.entry)
    requires Slave(l, m.entry) && l.owner(m.entry) == u && m.desc == l.desc(m.entry)
    ensures InboxInv(l, s', u)
    ensures forall f :: InInbox(s'.Inbox(u), f) <==> f == m.entry || InInbox(s.Inbox(u), f)
  {
    var q, q' := s.Inbox(u), s'.Inbox(u);
    assert q'[|q|] == m;
    forall f | InInbox(q, f) ensures InInbox(q', f) {
      var i :| 0 <= i < |q| && q[i].entry == f;
      assert q'[i].entry == f;
    }
  }

  /** A task that receives a datagram is alarmed; nothing else about it changes. */
  lemma AlarmedTask(l: Layout, s: State, s': State, u: Task)
    requires TaskInv(l, s, u) && u in s'.pc && s'.pc[u] == s.pc[u]
    requires s'.received == s.received && s'.restored == s.restored && s'.table == s.table && Alarmed(l, s', u)
    requires u in s.event ==> u in s'.event
    ensures TaskInv(l, s', u)
  {
  }

  lemma ServePeerTask(l: Layout, s: State, s': State, t: Task, f: Entry, j: nat, g: Entry, v: Task)
    requires l.Valid() && v in l.tasks && TaskInv(l, s, t) && TaskInv(l, s, v) && Serving(l, s, t, f, j, g)
    requires l.owner(g) != t && Step(l, s, t) == Some(s')
    ensures TaskInv(l, s', v)
  {
    if v == t {
      assert PassFacts(l, s', t, s.pc[t].k, s.pc[t].again);
    } else if v == l.owner(g) {
      assert Signalling(l, s', t, v);
      AlarmedTask(l, s, s', v);
    } else {
      AlarmFrame(l, s, s', t, v);
      OtherTask(l, s, s', v);
    }
  }

  /** What sending g's datagram does to every entry. */
  lemma ServePeerEntry(l: Layout, s: State, s': State, t: Task, f: Entry, j: nat, g: Entry, h: Entry)
    requires l.Valid() && Inv(l, s) && t in l.tasks && TaskInv(l, s, t) && Serving(l, s, t, f, j, g)
    requires l.owner(g) != t && Step(l, s, t) == Some(s') && l.Has(h)
    requires forall e :: InInbox(s'.Inbox(l.owner(g)), e) <==> e == g || InInbox(s.Inbox(l.owner(g)), e)
    ensures EntryInv(l, s', h)
  {
    ServeFacts(l, s, t, f, j, g);
    assert ServedTo(l, s', f) == j + 1;
    if h == f {
      assert l.UsersOk(f);
      ServedOneMore(l, s, s', f, j);
    } else if h != g {
      assert l.TaskOk(t) && l.EntryOk(h) && EntryInv(l, s, h);
      UntouchedByServe(l, s, s', f, g, h);
      OtherEntry(l, s, s', h);
    }
  }

  /** The datagram for g goes to the end of its owner's inbox and breaks no inbox. */
  lemma ServePeerInbox(l: Layout, s: State, s': State, t: Task, f: Entry, j: nat, g: Entry)
    requires l.Valid() && Inv(l, s) && t in l.tasks && TaskInv(l, s, t) && Serving(l, s, t, f, j, g)
    requires l.owner(g) != t && Step(l, s, t) == Some(s')
    ensures InboxInv(l, s', l.owner(g))
    ensures forall e :: InInbox(s'.Inbox(l.owner(g)), e) <==> e == g || InInbox(s.Inbox(l.owner(g)), e)
  {
    ServeFacts(l, s, t, f, j, g);
    assert InboxInv(l, s, l.owner(g));
    Pushed(l, s, s', l.owner(g), Msg(g, l.desc(f)));
  }

  lemma ServePeer(l: Layout, s: State, t: Task, f: Entry, j: nat, g: Entry)
    requires l.Valid() && Inv(l, s) && t in l.tasks && TaskInv(l, s, t) && Serving(l, s, t, f, j, g)
    requires l.owner(g) != t
    ensures Inv(l, Step(l, s, t).value)
  {
    var s' := Step(l, s, t).value;
    forall v | v in l.tasks ensures TaskInv(l, s', v) {
      assert TaskInv(l, s, v);
      ServePeerTask(l, s, s', t, f, j, g, v);
    }
    ServePeerInbox(l, s, s', t, f, j, g);
    forall v | v in l.tasks && v != l.owner(g) ensures InboxInv(l, s', v) {
      assert InboxInv(l, s, v);
    }
    forall h | l.Has(h) ensures EntryInv(l, s', h) {
      ServePeerEntry(l, s, s', t, f, j, g, h);
    }
  }

  lemma SignalKeepsAlarm(l: Layout, s: State, s': State, t: Task, v: Task)
    requires t in s.pc && s.pc[t].Signal? && PcOk(l, t, s.pc[t]) && Step(l, s, t) == Some(s')
    ensures Alarmed(l, s, v) ==> Alarmed(l, s', v)
  {
    if Alarmed(l, s, v) && v !in s.event {
      var w :| Signalling(l, s, w, v);
      if w != t { assert Signalling(l, s', w, v); }
    }
  }

  lemma SignalTask(l: Layout, s: State, s': State, t: Task, v: Task)
    requires l.Valid() && Inv(l, s) && t in l.tasks && TaskInv(l, s, t) && s.pc[t].Signal? && Step(l, s, t) == Some(s')
    requires v in l.tasks
    ensures TaskInv(l, s', v)
  {
    if v != t {
      SignalKeepsAlarm(l, s, s', t, v);
      assert TaskInv(l, s, v);
      OtherTask(l, s, s', v);
    }
  }

  lemma SignalEntry(l: Layout, s: State, s': State, t: Task, h: Entry)
    requires Inv(l, s) && t in l.tasks && TaskInv(l, s, t) && s.pc[t].Signal? && Step(l, s, t) == Some(s')
    requires l.Has(h)
    ensures EntryInv(l, s', h)
  {
    assert EntryInv(l, s, h) && SameEntry(l, s, s', h);
    OtherEntry(l, s, s', h);
  }

  /** Setting the event bit of the user just served. */
  lemma SignalStep(l: Layout, s: State, t: Task)
    requires l.Valid() && Inv(l, s) && t in l.tasks && TaskInv(l, s, t) && s.pc[t].Signal?
    ensures Inv(l, Step(l, s, t).value)
  {
    var s' := Step(l, s, t).value;
    forall v | v in l.tasks ensures TaskInv(l, s', v) {
      SignalTask(l, s, s', t, v);
    }
    forall v | v in l.tasks ensures InboxInv(l, s', v) {
      assert InboxInv(l, s, v);
    }
    forall h | l.Has(h) ensures EntryInv(l, s', h) {
      SignalEntry(l, s, s', t, h);
    }
  }

  /** Every step of every task keeps the invariant. */
  lemma StepInv(l: Layout, s: State, t: Task)
    requires l.Valid() && Inv(l, s) && t in l.tasks
    ensures TaskInv(l, s, t) && PcOk(l, t, s.pc[t])
    ensures Step(l, s, t).Some? ==> Inv(l, Step(l, s, t).value)
  {
    assert TaskInv(l, s, t);
    match s.pc[t]
    case Visit(k, _, _) =>
      if k == |l.fds(t)| { EndOfPass(l, s, t); }
      else {
        var f := l.fds(t)[k];
        if f in s.restored { VisitQuiet(l, s, t); }
        else if f == l.Master(f) { VisitMaster(l, s, t); }
        else if f in s.received { VisitReceived(l, s, t); }
        else { VisitQuiet(l, s, t); }
      }
    case Receive(_, _, _) => if s.Inbox(t) == [] { ReceiveNothing(l, s, t); } else { ReceivePop(l, s, t); }
    case Serve(k, _, j) =>
      var f := l.fds(t)[k];
      if j == |l.Users(f)| { ServeEnd(l, s, t); }
      else if l.owner(l.Users(f)[j]) == t { ServeSelf(l, s, t, f, j, l.Users(f)[j]); }
      else { ServePeer(l, s, t, f, j, l.Users(f)[j]); }
    case Signal(_, _, _) => SignalStep(l, s, t);
    case Done =>
    case _ => EndOfPass(l, s, t);
  }

  // ----- Runs -----

  ghost predicate CanStep(l: Layout, s: State, t: Task) {
    t in l.tasks && t in s.pc && PcOk(l, t, s.pc[t]) && Step(l, s, t).Some?
  }

  ghost predicate Next(l: Layout, s: State, s': State, t: Task) {
    CanStep(l, s, t) && s' == Step(l, s, t).value
  }

  /** r is a run in which task sched[i] makes step i. */
  ghost predicate Run(l: Layout, r: seq<State>, sched: seq<Task>) {
    && |r| == |sched| + 1 && Initial(l, r[0])
    && forall i {:trigger Next(l, r[i], r[i + 1], sched[i])} :: 0 <= i < |sched| ==> Next(l, r[i], r[i + 1], sched[i])
  }

  lemma RunNext(l: Layout, r: seq<State>, sched: seq<Task>, n: nat)
    requires Run(l, r, sched) && n < |sched|
    ensures Next(l, r[n], r[n + 1], sched[n])
  {
  }

  lemma {:induction false} RunInv(l: Layout, r: seq<State>, sched: seq<Task>, n: nat)
    requires l.Valid() && Run(l, r, sched) && n < |r|
    ensures Inv(l, r[n])
  {
    if n == 0 {
      InitialInv(l, r[0]);
    } else {
      RunInv(l, r, sched, n - 1);
      RunNext(l, r, sched, n - 1);
      StepInv(l, r[n - 1], sched[n - 1]);
    }
  }

  /** The entries whose descriptor number the next step of t fills. */
  ghost function Plants(l: Layout, s: State, t: Task): set<Entry> {
    if !(t in s.pc && PcOk(l, t, s.pc[t])) then {}
    else match s.pc[t]
      case Visit(k, _, _) =>
        if k < |l.fds(t)| && l.fds(t)[k] !in s.restored && l.fds(t)[k] == l.Master(l.fds(t)[k]) then {l.fds(t)[k]} else {}
      case Receive(_, _, _) => if s.Inbox(t) != [] then {s.Inbox(t)[0].entry} else {}
      case Serve(k, _, j) =>
        var f := l.fds(t)[k];
        if j < |l.Users(f)| && l.owner(l.Users(f)[j]) == t && l.fd(l.Users(f)[j]) != l.fd(f) then {l.Users(f)[j]} else {}
      case _ => {}
  }

  lemma PlantsEmptySlots(l: Layout, s: State, t: Task)
    requires l.Valid() && Inv(l, s) && t in l.tasks
    ensures forall f :: f in Plants(l, s, t) ==> f !in s.table && l.Has(f)
  {
    assert TaskInv(l, s, t) && l.TaskOk(t) && InboxInv(l, s, t);
    match s.pc[t]
    case Visit(k, _, _) =>
      if k < |l.fds(t)| && l.fds(t)[k] !in s.restored && l.fds(t)[k] == l.Master(l.fds(t)[k]) {
        assert l.Has(l.fds(t)[k]) && EntryInv(l, s, l.fds(t)[k]);
      }
    case Receive(_, _, _) =>
      if s.Inbox(t) != [] {
        var c := s.Inbox(t)[0].entry;
        assert EntryInv(l, s, c) && InInbox(s.Inbox(t), c);
      }
    case Serve(k, _, j) =>
      var f := l.fds(t)[k];
      if j < |l.Users(f)| && l.owner(l.Users(f)[j]) == t {
        ServeFacts(l, s, t, f, j, l.Users(f)[j]);
      }
    case _ =>
  }

  lemma TableOfVisit(l: Layout, s: State, s': State, t: Task)
    requires Next(l, s, s', t) && s.pc[t].Visit?
    ensures s'.table.Keys == s.table.Keys + Plants(l, s, t)
    ensures forall f :: f in s.table && f !in Plants(l, s, t) ==> s'.table[f] == s.table[f]
  {
    if Plants(l, s, t) == {} {
      assert s'.table == s.table;
    } else {
      var f := l.fds(t)[s.pc[t].k];
      assert Plants(l, s, t) == {f} && s'.table == s.table[f := l.desc(f)];
    }
  }

  lemma TableOfServe(l: Layout, s: State, s': State, t: Task)
    requires Next(l, s, s', t) && s.pc[t].Serve?
    ensures s'.table.Keys == s.table.Keys + Plants(l, s, t)
    ensures forall f :: f in s.table && f !in Plants(l, s, t) ==> s'.table[f] == s.table[f]
  {
    if Plants(l, s, t) == {} {
      assert s'.table == s.table;
    } else {
      var f := l.fds(t)[s.pc[t].k];
      var g := l.Users(f)[s.pc[t].j];
      assert Plants(l, s, t) == {g} && s'.table == s.table[g := l.desc(f)];
    }
  }

  lemma TableOfStep(l: Layout, s: State, s': State, t: Task)
    requires Next(l, s, s', t)
    ensures s'.table.Keys == s.table.Keys + Plants(l, s, t)
    ensures forall f :: f in s.table && f !in Plants(l, s, t) ==> s'.table[f] == s.table[f]
  {
    if s.pc[t].Visit? { TableOfVisit(l, s, s', t); }
    else if s.pc[t].Serve? { TableOfServe(l, s, s', t); }
  }

  /** A step fills only descriptor numbers still empty, each with the description of its entry. */
  lemma PlantsFresh(l: Layout, s: State, s': State, t: Task)
    requires l.Valid() && Inv(l, s) && Next(l, s, s', t)
    ensures Plants(l, s, t) !! s.table.Keys && s'.table.Keys == s.table.Keys + Plants(l, s, t)
    ensures forall f :: f in s.table ==> s'.table[f] == s.table[f]
    ensures forall f :: f in Plants(l, s, t) ==> s'.table[f] == l.desc(f) && l.Has(f)
  {
    PlantsEmptySlots(l, s, t);
    TableOfStep(l, s, s', t);
    StepInv(l, s, t);
    forall f | f in Plants(l, s, t) ensures s'.table[f] == l.desc(f) { assert EntryInv(l, s', f); }
  }

  /** Step n of a run. */
  lemma RunPlants(l: Layout, r: seq<State>, sched: seq<Task>, n: nat)
    requires l.Valid() && Run(l, r, sched) && n < |sched|
    ensures Plants(l, r[n], sched[n]) !! r[n].table.Keys && Plants(l, r[n], sched[n]) <= r[n + 1].table.Keys
    ensures forall f :: f in r[n].table ==> f in r[n + 1].table && r[n + 1].table[f] == r[n].table[f]
    ensures forall f :: f in Plants(l, r[n], sched[n]) ==> r[n + 1].table[f] == l.desc(f)
  {
    RunInv(l, r, sched, n);
    RunNext(l, r, sched, n);
    PlantsFresh(l, r[n], r[n + 1], sched[n]);
  }

  lemma {:induction false} TableGrows(l: Layout, r: seq<State>, sched: seq<Task>, i: nat, j: nat)
    requires l.Valid() && Run(l, r, sched) && i <= j < |r|
    ensures forall f :: f in r[i].table ==> f in r[j].table && r[j].table[f] == r[i].table[f]
  {
    if i < j {
      TableGrows(l, r, sched, i, j - 1);
      RunPlants(l, r, sched, j - 1);
    }
  }

  lemma NotPlantedAgain(l: Layout, r: seq<State>, sched: seq<Task>, i: nat, j: nat, f: Entry)
    requires l.Valid() && Run(l, r, sched) && i < j < |sched| && f in Plants(l, r[i], sched[i])
    ensures f !in Plants(l, r[j], sched[j])
  {
    RunPlants(l, r, sched, i);
    TableGrows(l, r, sched, i + 1, j);
    RunPlants(l, r, sched, j);
  }

  /** In every run an entry is planted by at most one step, with its own description, which stays. */
  lemma PlantedAtMostOnce(l: Layout, r: seq<State>, sched: seq<Task>, i: nat, j: nat, f: Entry)
    requires l.Valid() && Run(l, r, sched) && i < |sched| && j < |sched|
    requires f in Plants(l, r[i], sched[i]) && f in Plants(l, r[j], sched[j])
    ensures i == j
    ensures forall n :: i < n < |r| ==> f in r[n].table && r[n].table[f] == l.desc(f)
  {
    if i < j { NotPlantedAgain(l, r, sched, i, j, f); }
    if j < i { NotPlantedAgain(l, r, sched, j, i, f); }
    RunPlants(l, r, sched, i);
    forall n | i < n < |r| ensures f in r[n].table && r[n].table[f] == l.desc(f) {
      TableGrows(l, r, sched, i + 1, n);
    }
  }

  /** A task asleep, with no sender between send and signal, has nothing to collect. */
  lemma NoLostWakeup(l: Layout, r: seq<State>, sched: seq<Task>, n: nat, t: Task)
    requires l.Valid() && Run(l, r, sched) && n < |r| && t in l.tasks
    requires t in r[n].pc && r[n].pc[t].Waiting? && !Alarmed(l, r[n], t)
    ensures r[n].Inbox(t) == []
    ensures forall f :: f in l.fds(t) && f in r[n].received ==> f in r[n].restored
  {
    var s := r[n];
    RunInv(l, r, sched, n);
    assert TaskInv(l, s, t) && InboxInv(l, s, t) && l.TaskOk(t);
    if s.Inbox(t) != [] { InboxIsAvailable(l, s, t); }
  }

  lemma InboxIsAvailable(l: Layout, s: State, t: Task)
    requires l.Valid() && Inv(l, s) && t in l.tasks && s.Inbox(t) != []
    ensures Available(l, s, s.Inbox(t)[0].entry) && s.Inbox(t)[0].entry in l.fds(t)
  {
    var f := s.Inbox(t)[0].entry;
    assert InboxInv(l, s, t) && EntryInv(l, s, f) && InInbox(s.Inbox(t), f);
  }

  /** A slave whose master is restored has been handed its description. */
  lemma MissingIsAvailable(l: Layout, s: State, f: Entry)
    requires l.Valid() && Inv(l, s) && Slave(l, f) && f !in s.restored && l.Master(f) in s.restored
    ensures Available(l, s, f)
  {
    assert l.EntryOk(f) && EntryInv(l, s, f);
    var m := l.Master(f);
    assert m in l.Users(f) && l.Has(m) && l.Master(m) == m && EntryInv(l, s, m);
  }

  lemma StuckMaster(l: Layout, s: State, f: Entry)
    requires l.Valid() && Inv(l, s) && l.Has(f) && f == l.Master(f) && (forall u :: !CanStep(l, s, u))
    ensures f in s.restored
  {
    StuckIsDoneOrMissing(l, s, l.owner(f));
    assert TaskInv(l, s, l.owner(f));
  }

  /** A state in which nobody can step has everything restored. */
  lemma Quiescent(l: Layout, s: State, t: Task)
    requires l.Valid() && Inv(l, s) && t in l.tasks && (forall u :: !CanStep(l, s, u))
    ensures t in s.pc && s.pc[t] == Done && s.Inbox(t) == []
    ensures forall f :: f in l.fds(t) ==> f in s.restored && f in s.table && s.table[f] == l.desc(f)
  {
    StuckIsDoneOrMissing(l, s, t);
    assert TaskInv(l, s, t) && l.TaskOk(t) && InboxInv(l, s, t);
    forall f | f in l.fds(t) ensures f in s.restored && f in s.table && s.table[f] == l.desc(f) {
      assert l.Has(f) && EntryInv(l, s, f) && l.EntryOk(f);
      var m := l.Master(f);
      assert l.Has(m) && l.Master(m) == m;
      StuckMaster(l, s, m);
      if f !in s.restored { MissingIsAvailable(l, s, f); }
    }
    if s.Inbox(t) != [] { InboxIsAvailable(l, s, t); }
  }

  lemma StuckIsDoneOrMissing(l: Layout, s: State, t: Task)
    requires l.Valid() && Inv(l, s) && t in l.tasks && (forall u :: !CanStep(l, s, u))
    ensures s.pc[t].Done? || (s.pc[t].Waiting? && !Alarmed(l, s, t))
  {
    assert TaskInv(l, s, t) && !CanStep(l, s, t);
    if Alarmed(l, s, t) && t !in s.event {
      var u :| Signalling(l, s, u, t);
      SignallerCanStep(l, s, u, t);
    }
  }

  lemma SignallerCanStep(l: Layout, s: State, u: Task, t: Task)
    requires Inv(l, s) && Signalling(l, s, u, t)
    ensures CanStep(l, s, u)
  {
  }

  // ----- Every run ends -----

  ghost function All(l: Layout): set<Entry> {
    set t, i | t in l.tasks && 0 <= i < |l.fds(t)| :: l.fds(t)[i]
  }

  /** How long a task with len entries, out of n, can go on before Count has to change. */
  ghost function Rank(n: nat, len: nat, pc: Pc): nat {
    match pc
    case PassStart => 2 * n + 3
    case Visit(k, progress, _) => Left(len, k) + 2 + (if progress then 2 * n + 3 else 0)
    case Receive(k, progress, _) => Left(len, k) + 1 + (if progress then 2 * n + 3 else 0)
    case Serve(k, _, j) => Left(len, k) + Left(n, j)
    case Signal(k, _, j) => Left(len, k) + Left(n, j + 1) + 2 * n + 7
    case Waiting => 1
    case Woken => 0
    case Done => 0
  }

  ghost function Left(len: nat, k: nat): nat { if k < len then 2 * (len - k) else 0 }

  ghost function Ranks(l: Layout, s: State, n: nat): map<Task, nat> {
    map t | t in s.pc :: Rank(n, |l.fds(t)|, s.pc[t])
  }

  /** What is left to hand over, plus the event bits that are set. */
  ghost function Count(a: set<Entry>, ts: set<Task>, s: State): nat {
    Outside(a, s.restored) + Outside(a, s.sent) + Outside(a, s.table.Keys) + Outside(a, s.received)
    + Outside(ts, ts - s.event)
  }

  ghost function Measure(l: Layout, a: set<Entry>, s: State): nat {
    Weighted(Count(a, l.tasks, s), 2 * |a| + 6) + Sum(Ranks(l, s, |a|))
  }

  /** A step of t moves Count by -d and pays for it, or is paid for by it, in t's rank. */
  ghost predicate Pays(l: Layout, a: set<Entry>, s: State, s': State, t: Task, d: int) {
    && t in s.pc && t in s'.pc && s'.pc == s.pc[t := s'.pc[t]]
    && -1 <= d <= 1 && Count(a, l.tasks, s') + d <= Count(a, l.tasks, s)
    && Rank(|a|, |l.fds(t)|, s'.pc[t]) + (if d == -1 then 2 * |a| + 6 else 0)
         < Rank(|a|, |l.fds(t)|, s.pc[t]) + (if d == 1 then 2 * |a| + 6 else 0)
  }

  lemma MeasureOfStep(l: Layout, a: set<Entry>, s: State, s': State, t: Task, d: int)
    requires Pays(l, a, s, s', t, d)
    ensures Measure(l, a, s') < Measure(l, a, s)
  {
    var v := Rank(|a|, |l.fds(t)|, s'.pc[t]);
    RanksUpdate(l, s, s', |a|, t);
    TotalDrops(Count(a, l.tasks, s), Count(a, l.tasks, s'), 2 * |a| + 6, Ranks(l, s, |a|), t, v, d);
  }

  lemma RanksUpdate(l: Layout, s: State, s': State, n: nat, t: Task)
    requires t in s.pc && t in s'.pc && s'.pc == s.pc[t := s'.pc[t]]
    ensures Ranks(l, s', n) == Ranks(l, s, n)[t := Rank(n, |l.fds(t)|, s'.pc[t])]
  {
    var m, m' := Ranks(l, s, n), Ranks(l, s', n)[t := Rank(n, |l.fds(t)|, s'.pc[t])];
    assert m' == Ranks(l, s', n);
    assert m[t := Rank(n, |l.fds(t)|, s'.pc[t])] == m';
  }

  ghost predicate Grows(s: State, s': State) {
    s.restored <= s'.restored && s.sent <= s'.sent && s.table.Keys <= s'.table.Keys && s.received <= s'.received
    && s'.event == s.event
  }

  lemma CountShrinks(a: set<Entry>, ts: set<Task>, s: State, s': State)
    requires Grows(s, s')
    ensures Count(a, ts, s') <= Count(a, ts, s)
  {
    OutsideGrows(a, s.restored, s'.restored);
    OutsideGrows(a, s.sent, s'.sent);
    OutsideGrows(a, s.table.Keys, s'.table.Keys);
    OutsideGrows(a, s.received, s'.received);
  }

  lemma CountDrops(a: set<Entry>, ts: set<Task>, s: State, s': State, e: Entry)
    requires Grows(s, s') && e in a
    requires (e !in s.restored && e in s'.restored) || (e !in s.sent && e in s'.sent) || (e !in s.received && e in s'.received)
             || (e !in s.table && e in s'.table)
    ensures Count(a, ts, s') + 1 <= Count(a, ts, s)
  {
    OutsideGrows(a, s.restored, s'.restored);
    OutsideGrows(a, s.sent, s'.sent);
    OutsideGrows(a, s.table.Keys, s'.table.Keys);
    OutsideGrows(a, s.received, s'.received);
  }

  lemma EventCount(a: set<Entry>, ts: set<Task>, s: State, s': State, t: Task)
    requires s'.restored == s.restored && s'.sent == s.sent && s'.table == s.table && s'.received == s.received
    ensures s'.event == s.event + {t} ==> Count(a, ts, s') <= Count(a, ts, s) + 1
    ensures s'.event == s.event - {t} ==> Count(a, ts, s') <= Count(a, ts, s)
    ensures s'.event == s.event - {t} && t in s.event && t in ts ==> Count(a, ts, s') + 1 <= Count(a, ts, s)
  {
    if s'.event == s.event + {t} {
      if t in ts {
        OutsideSplit(ts, ts - s.event, t);
        OutsideSplit(ts, ts - s'.event, t);
        OutsideSame(ts - {t}, ts - s.event, ts - s'.event);
      } else {
        OutsideSame(ts, ts - s.event, ts - s'.event);
      }
    }
    if s'.event == s.event - {t} {
      OutsideGrows(ts, ts - s.event, ts - s'.event);
    }
  }

  /** All entries of the image are among a. */
  ghost predicate Covers(l: Layout, a: set<Entry>) {
    forall f :: l.Has(f) ==> f in a
  }

  lemma FdsFit(l: Layout, a: set<Entry>, t: Task)
    requires l.Valid() && t in l.tasks && Covers(l, a)
    ensures |l.fds(t)| <= |a| && forall f :: f in l.fds(t) ==> f in a
  {
    assert l.TaskOk(t) && l.NumbersOk(t) && forall f :: f in l.fds(t) ==> l.Has(f);
    Distinct(l.fds(t));
    SubsetSize(Elems(l.fds(t)), a);
  }

  lemma UsersFit(l: Layout, a: set<Entry>, f: Entry)
    requires l.Valid() && l.Has(f) && Covers(l, a)
    ensures |l.Users(f)| <= |a| && forall g :: g in l.Users(f) ==> g in a
  {
    assert l.EntryOk(f) && l.UsersOk(f);
    Distinct(l.Users(f));
    SubsetSize(Elems(l.Users(f)), a);
  }

  lemma PassPays(l: Layout, a: set<Entry>, s: State, s': State, t: Task) returns (d: int)
    requires l.Valid() && Covers(l, a) && Inv(l, s) && Next(l, s, s', t)
    requires s.pc[t].PassStart? || s.pc[t].Waiting? || s.pc[t].Woken?
    ensures Pays(l, a, s, s', t, d)
  {
    assert TaskInv(l, s, t);
    FdsFit(l, a, t);
    if s.pc[t].Waiting? { d := 0; }
    else {
      EventCount(a, l.tasks, s, s', t);
      d := if s.pc[t].Woken? then 1 else 0;
    }
  }

  lemma SignalPays(l: Layout, a: set<Entry>, s: State, s': State, t: Task)
    requires l.Valid() && Covers(l, a) && Inv(l, s) && Next(l, s, s', t) && s.pc[t].Signal?
    ensures Pays(l, a, s, s', t, -1)
  {
    EventCount(a, l.tasks, s, s', l.owner(l.Users(l.fds(t)[s.pc[t].k])[s.pc[t].j]));
  }

  lemma ServeSelfPays(l: Layout, a: set<Entry>, s: State, s': State, t: Task, f: Entry, j: nat, g: Entry)
    requires Next(l, s, s', t) && Serving(l, s, t, f, j, g) && l.owner(g) == t && |l.Users(f)| <= |a|
    ensures Pays(l, a, s, s', t, 0)
  {
    CountShrinks(a, l.tasks, s, s');
  }

  lemma ServePeerPays(l: Layout, a: set<Entry>, s: State, s': State, t: Task, f: Entry, j: nat, g: Entry)
    requires Next(l, s, s', t) && Serving(l, s, t, f, j, g) && l.owner(g) != t && |l.Users(f)| <= |a|
    requires g in a && g !in s.sent
    ensures Pays(l, a, s, s', t, 1)
  {
    CountDrops(a, l.tasks, s, s', g);
  }

  lemma ServeUserPays(l: Layout, a: set<Entry>, s: State, s': State, t: Task, f: Entry, j: nat, g: Entry) returns (d: int)
    requires l.Valid() && Covers(l, a) && Inv(l, s) && Next(l, s, s', t) && TaskInv(l, s, t) && Serving(l, s, t, f, j, g)
    ensures Pays(l, a, s, s', t, d)
  {
    ServeFacts(l, s, t, f, j, g);
    UsersFit(l, a, f);
    if l.owner(g) == t {
      ServeSelfPays(l, a, s, s', t, f, j, g);
      d := 0;
    } else {
      ServePeerPays(l, a, s, s', t, f, j, g);
      d := 1;
    }
  }

  lemma ServePays(l: Layout, a: set<Entry>, s: State, s': State, t: Task) returns (d: int)
    requires l.Valid() && Covers(l, a) && Inv(l, s) && Next(l, s, s', t) && s.pc[t].Serve?
    ensures Pays(l, a, s, s', t, d)
  {
    assert TaskInv(l, s, t) && l.TaskOk(t);
    var f, j := l.fds(t)[s.pc[t].k], s.pc[t].j;
    assert l.Has(f);
    if j == |l.Users(f)| {
      UsersFit(l, a, f);
      CountDrops(a, l.tasks, s, s', f);
      d := 1;
    } else {
      d := ServeUserPays(l, a, s, s', t, f, j, l.Users(f)[j]);
    }
  }

  lemma NothingPays(l: Layout, a: set<Entry>, s: State, s': State, t: Task)
    requires Next(l, s, s', t) && s.pc[t].Receive? && s.Inbox(t) == []
    ensures Pays(l, a, s, s', t, 0)
  {
    CountShrinks(a, l.tasks, s, s');
  }

  lemma PopPays(l: Layout, a: set<Entry>, s: State, s': State, t: Task)
    requires Next(l, s, s', t) && s.pc[t].Receive? && s.Inbox(t) != []
    requires s.Inbox(t)[0].entry in a && s.Inbox(t)[0].entry !in s.received
    ensures Pays(l, a, s, s', t, 1)
  {
    CountDrops(a, l.tasks, s, s', s.Inbox(t)[0].entry);
  }

  lemma ReceivePays(l: Layout, a: set<Entry>, s: State, s': State, t: Task) returns (d: int)
    requires l.Valid() && Covers(l, a) && Inv(l, s) && Next(l, s, s', t) && s.pc[t].Receive?
    ensures Pays(l, a, s, s', t, d)
  {
    if s.Inbox(t) != [] {
      var c := s.Inbox(t)[0].entry;
      assert InboxInv(l, s, t) && EntryInv(l, s, c) && InInbox(s.Inbox(t), c);
      PopPays(l, a, s, s', t);
      d := 1;
    } else {
      NothingPays(l, a, s, s', t);
      d := 0;
    }
  }

  /** Opening a master or taking a received slave uses up one item of Count. */
  lemma TakePays(l: Layout, a: set<Entry>, s: State, s': State, t: Task, k: nat, progress: bool, again: bool)
    requires t in s.pc && s.pc[t] == Visit(k, progress, again) && k < |l.fds(t)| <= |a| && l.fds(t)[k] in a
    requires var f := l.fds(t)[k]; f !in s.restored && (if f == l.Master(f) then f !in s.table else f in s.received)
    requires s' == VisitEntry(l, s, t, k, progress, again)
    ensures Pays(l, a, s, s', t, 1)
  {
    CountDrops(a, l.tasks, s, s', l.fds(t)[k]);
  }

  /** Passing over an entry, starting to look for it, or ending the pass. */
  lemma PassOnPays(l: Layout, a: set<Entry>, s: State, s': State, t: Task)
    requires Next(l, s, s', t) && s.pc[t].Visit? && t in s'.pc && s' == s.At(t, s'.pc[t]) && !s'.pc[t].Serve?
    ensures Pays(l, a, s, s', t, 0)
  {
    CountShrinks(a, l.tasks, s, s');
  }

  lemma VisitPays(l: Layout, a: set<Entry>, s: State, s': State, t: Task) returns (d: int)
    requires l.Valid() && Covers(l, a) && Inv(l, s) && Next(l, s, s', t) && s.pc[t].Visit?
    ensures Pays(l, a, s, s', t, d)
  {
    var Visit(k, progress, again) := s.pc[t];
    if k < |l.fds(t)| && l.fds(t)[k] !in s.restored
       && (l.fds(t)[k] == l.Master(l.fds(t)[k]) || l.fds(t)[k] in s.received) {
      PlantsEmptySlots(l, s, t);
      FdsFit(l, a, t);
      TakePays(l, a, s, s', t, k, progress, again);
      d := 1;
    } else {
      PassOnPays(l, a, s, s', t);
      d := 0;
    }
  }

  /** Every step of every task lowers the measure, so there is no infinite run. */
  lemma StepDecreases(l: Layout, a: set<Entry>, s: State, s': State, t: Task)
    requires l.Valid() && Covers(l, a) && Inv(l, s) && Next(l, s, s', t)
    ensures Measure(l, a, s') < Measure(l, a, s)
  {
    var d;
    if s.pc[t].Serve? { d := ServePays(l, a, s, s', t); }
    else if s.pc[t].Signal? { SignalPays(l, a, s, s', t); d := -1; }
    else if s.pc[t].Visit? { d := VisitPays(l, a, s, s', t); }
    else if s.pc[t].Receive? { d := ReceivePays(l, a, s, s', t); }
    else { d := PassPays(l, a, s, s', t); }
    MeasureOfStep(l, a, s, s', t, d);
  }

  lemma AllCovers(l: Layout)
    ensures Covers(l, All(l))
  {
    forall f | l.Has(f) ensures f in All(l) {
      var i :| 0 <= i < |l.fds(l.owner(f))| && l.fds(l.owner(f))[i] == f;
    }
  }

  lemma RunStep(l: Layout, a: set<Entry>, r: seq<State>, sched: seq<Task>, n: nat)
    requires l.Valid() && Covers(l, a) && Run(l, r, sched) && 0 < n < |r|
    ensures Measure(l, a, r[n]) < Measure(l, a, r[n - 1])
  {
    RunInv(l, r, sched, n - 1);
    RunNext(l, r, sched, n - 1);
    StepDecreases(l, a, r[n - 1], r[n], sched[n - 1]);
  }

  ghost function Measures(l: Layout, a: set<Entry>, r: seq<State>): (ms: seq<nat>)
    ensures |ms| == |r|
  {
    seq(|r|, i requires 0 <= i < |r| => Measure(l, a, r[i]))
  }

  lemma MeasuresDrop(l: Layout, a: set<Entry>, r: seq<State>, i: nat)
    requires 0 < i < |r| && Measure(l, a, r[i]) < Measure(l, a, r[i - 1])
    ensures DropsAt(Measures(l, a, r), i)
  {
    var ms := Measures(l, a, r);
    assert ms[i] == Measure(l, a, r[i]) && ms[i - 1] == Measure(l, a, r[i - 1]);
  }

  lemma BoundedBy(l: Layout, a: set<Entry>, r: seq<State>, sched: seq<Task>)
    requires l.Valid() && Covers(l, a) && Run(l, r, sched)
    ensures |sched| <= Measures(l, a, r)[0]
  {
    forall i | 0 < i < |r| ensures DropsAt(Measures(l, a, r), i) {
      RunStep(l, a, r, sched, i);
      MeasuresDrop(l, a, r, i);
    }
    Descent(Measures(l, a, r), |sched|);
  }

  lemma RunsAreBounded(l: Layout, r: seq<State>, sched: seq<Task>)
    requires l.Valid() && Run(l, r, sched)
    ensures |sched| <= Measure(l, All(l), r[0])
  {
    AllCovers(l);
    BoundedBy(l, All(l), r, sched);
  }

  /** Every run is finite, and a run that cannot be continued has planted every entry with its description. */
  lemma EveryRunRestoresAll(l: Layout, r: seq<State>, sched: seq<Task>)
    requires l.Valid() && Run(l, r, sched)
    ensures |sched| <= Measure(l, All(l), r[0])
    ensures (forall u :: !CanStep(l, r[|sched|], u)) ==>
              forall t :: t in l.tasks ==> t in r[|sched|].pc && r[|sched|].pc[t] == Done && r[|sched|].Inbox(t) == []
    ensures (forall u :: !CanStep(l, r[|sched|], u)) ==>
              forall f :: l.Has(f) ==> f in r[|sched|].restored && f in r[|sched|].table && r[|sched|].table[f] == l.desc(f)
  {
    RunsAreBounded(l, r, sched);
    RunInv(l, r, sched, |sched|);
    if forall u :: !CanStep(l, r[|sched|], u) {
      forall t | t in l.tasks
        ensures t in r[|sched|].pc && r[|sched|].pc[t] == Done && r[|sched|].Inbox(t) == []
        ensures forall f :: f in l.fds(t) ==>
                  f in r[|sched|].restored && f in r[|sched|].table && r[|sched|].table[f] == l.desc(f)
      {
        Quiescent(l, r[|sched|], t);
      }
    }
  }

  /** Two tasks with one description between them: entry 0 of task 0 is the master, entry 1 of task 1 the slave. */
  ghost function SharedBetweenTwo(): (l: Layout)
    ensures l.tasks == {0, 1} && l.fds(0) == [0] && l.fds(1) == [1] && l.owner(0) == 0 && l.owner(1) == 1
    ensures forall f :: l.desc(f) == 5 && l.users(l.desc(f)) == [0, 1] && l.owner(f) in {0, 1}
  {
    Layout({0, 1}, t => [t], d => [0, 1], f => if f == 0 then 0 else 1, f => 5, f => 3)
  }

  lemma SharedEntries(l: Layout, f: Entry)
    requires l == SharedBetweenTwo() && l.Has(f)
    ensures (f == 0 || f == 1) && l.EntryOk(f) && l.UsersOk(f)
  {
    assert l.Users(f) == [0, 1];
    assert l.Has(0) && l.Has(1);
  }

  /** The theorems speak about something: this layout is valid, its slave waits for a master, and its runs can start. */
  lemma SharedCanStart(s: State)
    requires s == State(map[0 := PassStart, 1 := PassStart], {}, map[], {}, {}, map[], {})
    ensures var l := SharedBetweenTwo(); l.Valid() && Slave(l, 1) && Run(l, [s], [])
  {
    var l := SharedBetweenTwo();
    forall t | t in l.tasks ensures l.TaskOk(t) && l.NumbersOk(t) { }
    forall f | l.Has(f) ensures l.EntryOk(f) && l.UsersOk(f) { SharedEntries(l, f); }
    assert l.Users(1) == [0, 1];
  }

  lemma SharedLooksAround(s: State)
    requires s == State(map[0 := PassStart, 1 := PassStart], {}, map[], {}, {}, map[], {})
    ensures Next(SharedBetweenTwo(), s, s.At(1, Visit(0, false, false)), 1)
    ensures Next(SharedBetweenTwo(), s.At(1, Visit(0, false, false)), s.At(1, Receive(0, false, false)), 1)
  {
    assert SharedBetweenTwo().Users(1) == [0, 1];
  }

  /** Task 1 of that layout goes to sleep before its master was opened: the premise of NoLostWakeup. */
  lemma SharedFallsAsleep(s: State)
    requires s == State(map[0 := PassStart, 1 := PassStart], {}, map[], {}, {}, map[], {})
    ensures var l, r := SharedBetweenTwo(), [s, s.At(1, Visit(0, false, false)), s.At(1, Receive(0, false, false)),
                                             s.At(1, Visit(1, false, true)), s.At(1, Waiting)];
            l.Valid() && Run(l, r, [1, 1, 1, 1]) && r[4].pc[1].Waiting? && !Alarmed(l, r[4], 1)
  {
    var l := SharedBetweenTwo();
    SharedCanStart(s);
    SharedLooksAround(s);
    assert Next(l, s.At(1, Receive(0, false, false)), s.At(1, Visit(1, false, true)), 1);
    assert Next(l, s.At(1, Visit(1, false, true)), s.At(1, Waiting), 1);
  }

  lemma OldSteps(l: Layout, r: seq<State>, sched: seq<Task>, s': State, t: Task, i: nat)
    requires Run(l, r, sched) && i < |sched|
    ensures Next(l, (r + [s'])[i], (r + [s'])[i + 1], (sched + [t])[i])
  {
    assert (r + [s'])[i] == r[i] && (r + [s'])[i + 1] == r[i + 1] && (sched + [t])[i] == sched[i];
  }

  lemma RunExtends(l: Layout, r: seq<State>, sched: seq<Task>, s': State, t: Task)
    requires Run(l, r, sched) && Next(l, r[|sched|], s', t)
    ensures Run(l, r + [s'], sched + [t])
  {
    var r', sched' := r + [s'], sched + [t];
    forall i | 0 <= i < |sched'| ensures Next(l, r'[i], r'[i + 1], sched'[i]) {
      if i < |sched| {
        OldSteps(l, r, sched, s', t, i);
      } else {
        assert r'[i] == r[|sched|] && r'[i + 1] == s' && sched'[i] == t;
      }
    }
    assert r'[0] == r[0];
  }

  lemma OneMore(l: Layout, a: set<Entry>, r: seq<State>, sched: seq<Task>, t: Task)
    returns (r': seq<State>, sched': seq<Task>)
    requires l.Valid() && Covers(l, a) && Run(l, r, sched) && CanStep(l, r[|sched|], t)
    ensures Run(l, r', sched') && r <= r' && Measure(l, a, r'[|sched'|]) < Measure(l, a, r[|sched|])
  {
    var s' := Step(l, r[|sched|], t).value;
    r', sched' := r + [s'], sched + [t];
    RunExtends(l, r, sched, s', t);
    RunStep(l, a, r', sched', |sched'|);
  }

  /** Every run can be continued until nobody can step. */
  lemma {:induction false} Continue(l: Layout, a: set<Entry>, r: seq<State>, sched: seq<Task>)
    returns (r': seq<State>, sched': seq<Task>)
    requires l.Valid() && Covers(l, a) && Run(l, r, sched)
    ensures Run(l, r', sched') && r <= r' && forall u :: !CanStep(l, r'[|sched'|], u)
    decreases Measure(l, a, r[|sched|])
  {
    if t :| CanStep(l, r[|sched|], t) {
      r', sched' := OneMore(l, a, r, sched, t);
      r', sched' := Continue(l, a, r', sched');
    } else {
      r', sched' := r, sched;
    }
  }

  /** So from every valid layout some run, and by EveryRunRestoresAll every complete run, plants every entry. */
  lemma CanFinish(l: Layout, s: State) returns (r: seq<State>, sched: seq<Task>)
    requires l.Valid() && Initial(l, s)
    ensures Run(l, r, sched) && r[0] == s && forall f :: l.Has(f) ==> f in r[|sched|].table && r[|sched|].table[f] == l.desc(f)
  {
    assert Run(l, [s], []);
    AllCovers(l);
    r, sched := Continue(l, All(l), [s], []);
    EveryRunRestoresAll(l, r, sched);
    assert r[0] == [s][0];
  }
}
