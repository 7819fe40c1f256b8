// Human-in-the-loop escalation: customers open sessions, admins take and end them, and pollers turn
// overdue sessions into tickets. First with every transaction atomic, then statement by statement.
module Hitl {
  import opened Wrappers

  datatype Status = Pending | Active | Resolved | AutoEscalated

  datatype Session = Session(thread: nat, status: Status, startedAt: int, admin: Option<nat>)

  datatype Task = Task(session: nat, thread: nat, executeAt: int)

  datatype Ticket = Ticket(session: nat, thread: nat, openedAt: int)

  datatype ThreadStatus = ThreadActive | HumanIntervention

  // The committed rows.
  datatype Db = Db(sessions: map<nat, Session>, tasks: map<nat, Task>, tickets: map<nat, Ticket>,
                   threads: map<nat, ThreadStatus>)

  const ESCALATION_DELAY := 60

  // ---------- What each transaction writes ----------

  function Opened(db: Db, session: nat, task: nat, thread: nat, now: int): Db {
    db.(sessions := db.sessions[session := Session(thread, Pending, now, None)],
        tasks := db.tasks[task := Task(session, thread, now + ESCALATION_DELAY)])
  }

  function Taken(db: Db, session: nat, admin: nat): Db
    requires session in db.sessions
  {
    var row := db.sessions[session];
    db.(threads := db.threads[row.thread := HumanIntervention],
        sessions := db.sessions[session := row.(admin := Some(admin), status := Active)])
  }

  function Ended(db: Db, session: nat): Db
    requires session in db.sessions
  {
    var row := db.sessions[session];
    db.(threads := db.threads[row.thread := ThreadActive],
        sessions := db.sessions[session := row.(status := Resolved)])
  }

  // The poller's writes: escalate if the session was read as pending, and delete the task.
  function Processed(db: Db, task: nat, escalate: bool, ticket: nat, now: int): Db
    requires task in db.tasks && db.tasks[task].session in db.sessions
  {
    var t := db.tasks[task];
    var row := db.sessions[t.session];
    var cleared := db.(tasks := db.tasks - {task});
    if !escalate then cleared
    else cleared.(sessions := db.sessions[t.session := row.(status := AutoEscalated)],
                  tickets := db.tickets[ticket := Ticket(t.session, t.thread, now)])
  }

  ghost predicate EarliestDue(tasks: map<nat, Task>, free: set<nat>, task: nat, now: int) {
    && task in tasks && task in free && tasks[task].executeAt <= now
    && forall other :: other in tasks && other in free && tasks[other].executeAt <= now ==>
         tasks[task].executeAt <= tasks[other].executeAt
  }

  // ---------- The handlers ----------

  datatype Reply = Done | NotFound | Conflict(status: Status)

  class Store {
    var sessions: map<nat, Session>
    var tasks: map<nat, Task>
    var tickets: map<nat, Ticket>
    var threads: map<nat, ThreadStatus>

    function Rows(): Db
      reads this
    {
      Db(sessions, tasks, tickets, threads)
    }

    method NotifyHitlRequest(session: nat, task: nat, thread: nat, now: int)
      modifies this
      ensures Rows() == Opened(old(Rows()), session, task, thread, now)
    {
      sessions := sessions[session := Session(thread, Pending, now, None)];
      tasks := tasks[task := Task(session, thread, now + ESCALATION_DELAY)];
    }

    method TakeSession(session: nat, admin: nat) returns (reply: Reply)
      modifies this
      ensures session !in old(sessions) ==> reply == NotFound
      ensures session in old(sessions) && old(sessions)[session].status != Pending ==>
                reply == Conflict(old(sessions)[session].status)
      ensures session in old(sessions) && old(sessions)[session].status == Pending ==>
                var row := old(sessions)[session];
                && reply == Done && Rows() == Taken(old(Rows()), session, admin)
                && sessions == old(sessions)[session := Session(row.thread, Active, row.startedAt, Some(admin))]
                && threads == old(threads)[row.thread := HumanIntervention]
      ensures reply != Done ==> Rows() == old(Rows())
    {
      if session !in sessions {
        return NotFound;
      }
      var row := sessions[session];
      if row.status != Pending {
        return Conflict(row.status);
      }
      threads := threads[row.thread := HumanIntervention];
      sessions := sessions[session := row.(admin := Some(admin), status := Active)];
      reply := Done;
    }

    method EndSession(session: nat) returns (reply: Reply)
      modifies this
      ensures session !in old(sessions) ==> reply == NotFound
      ensures session in old(sessions) && old(sessions)[session].status != Active ==>
                reply == Conflict(old(sessions)[session].status)
      ensures session in old(sessions) && old(sessions)[session].status == Active ==>
                var row := old(sessions)[session];
                && reply == Done && Rows() == Ended(old(Rows()), session)
                && sessions == old(sessions)[session := Session(row.thread, Resolved, row.startedAt, row.admin)]
                && threads == old(threads)[row.thread := ThreadActive]
      ensures reply != Done ==> Rows() == old(Rows())
    {
      if session !in sessions {
        return NotFound;
      }
      var row := sessions[session];
      if row.status != Active {
        return Conflict(row.status);
      }
      threads := threads[row.thread := ThreadActive];
      sessions := sessions[session := row.(status := Resolved)];
      reply := Done;
    }

    // `due` is the row the locking query returned.
    method PollEscalationTasks(due: Option<nat>, ticket: nat, now: int)
      requires due.Some? ==> EarliestDue(tasks, tasks.Keys, due.value, now) && tasks[due.value].session in sessions
      modifies this
      ensures due.None? ==> Rows() == old(Rows())
      ensures due.Some? ==>
                Rows() == Processed(old(Rows()), due.value,
                                    old(sessions)[old(tasks)[due.value].session].status == Pending, ticket, now)
      ensures due.Some? && old(sessions)[old(tasks)[due.value].session].status == Pending ==>
                var task := old(tasks)[due.value];
                && task.session in sessions && sessions[task.session].status == AutoEscalated
                && tickets == old(tickets)[ticket := Ticket(task.session, task.thread, now)]
      ensures due.Some? && old(sessions)[old(tasks)[due.value].session].status != Pending ==>
                sessions == old(sessions) && tickets == old(tickets)
    {
      if due.None? {
        return;
      }
      var row := tasks[due.value];
      var session := sessions[row.session];
      if session.status == Pending {
        sessions := sessions[row.session := session.(status := AutoEscalated)];
        tickets := tickets[ticket := Ticket(row.session, row.thread, now)];
      }
      tasks := tasks - {due.value};
    }
  }

  // ---------- Invariants ----------

  // Each session has at most one task and ticket together, and every task has its session.
  ghost predicate OneClaim(db: Db) {
    && (forall t :: t in db.tasks ==> db.tasks[t].session in db.sessions)
    && (forall k :: k in db.tickets ==> db.tickets[k].session in db.sessions)
    && (forall t, t' :: t in db.tasks && t' in db.tasks && db.tasks[t].session == db.tasks[t'].session ==> t == t')
    && (forall k, k' :: k in db.tickets && k' in db.tickets && db.tickets[k].session == db.tickets[k'].session ==>
          k == k')
    && (forall t, k :: t in db.tasks && k in db.tickets ==> db.tasks[t].session != db.tickets[k].session)
  }

  ghost predicate HasTask(db: Db, session: nat) {
    exists t :: t in db.tasks && db.tasks[t].session == session
  }

  ghost predicate HasTicket(db: Db, session: nat) {
    exists k :: k in db.tickets && db.tickets[k].session == session
  }

  // A pending session still has its task, a ticket exists exactly for auto-escalated sessions, and
  // an admin is recorded exactly for sessions that were taken - so none is both.
  ghost predicate StatusOk(db: Db, s: nat)
    requires s in db.sessions
  {
    var row := db.sessions[s];
    && (row.status == Pending ==> HasTask(db, s))
    && (HasTicket(db, s) <==> row.status == AutoEscalated)
    && (row.admin.Some? <==> row.status == Active || row.status == Resolved)
  }

  ghost predicate StatusInv(db: Db) {
    forall s :: s in db.sessions ==> StatusOk(db, s)
  }

  // Nobody is escalated before the delay has passed.
  ghost predicate OnTime(db: Db) {
    && (forall t :: t in db.tasks && db.tasks[t].session in db.sessions ==>
          db.tasks[t].executeAt == db.sessions[db.tasks[t].session].startedAt + ESCALATION_DELAY)
    && (forall k :: k in db.tickets && db.tickets[k].session in db.sessions ==>
          db.tickets[k].openedAt >= db.sessions[db.tickets[k].session].startedAt + ESCALATION_DELAY)
  }

  ghost predicate Inv(db: Db) {
    OneClaim(db) && StatusInv(db) && OnTime(db)
  }

  // ---------- Runs of atomic transactions ----------

  datatype Tx =
    | Notify(session: nat, task: nat, thread: nat, now: int)
    | Take(session: nat, admin: nat)
    | End(session: nat)
    | Poll(task: nat, ticket: nat, now: int)

  // Identifiers are fresh UUIDs; a poll works on the earliest due task.
  ghost predicate Can(db: Db, tx: Tx) {
    match tx
    case Notify(session, task, _, _) => session !in db.sessions && task !in db.tasks
    case Take(_, _) => true
    case End(_) => true
    case Poll(task, ticket, now) => EarliestDue(db.tasks, db.tasks.Keys, task, now) && ticket !in db.tickets
  }

  ghost function Apply(db: Db, tx: Tx): Db {
    match tx
    case Notify(session, task, thread, now) => Opened(db, session, task, thread, now)
    case Take(session, admin) =>
      if session in db.sessions && db.sessions[session].status == Pending then Taken(db, session, admin) else db
    case End(session) =>
      if session in db.sessions && db.sessions[session].status == Active then Ended(db, session) else db
    case Poll(task, ticket, now) =>
      if task in db.tasks && db.tasks[task].session in db.sessions then
        Processed(db, task, db.sessions[db.tasks[task].session].status == Pending, ticket, now)
      else db
  }

  lemma OpenedKeeps(db: Db, session: nat, task: nat, thread: nat, now: int)
    requires OneClaim(db) && session !in db.sessions && task !in db.tasks
    ensures OneClaim(Opened(db, session, task, thread, now))
    ensures OnTime(db) ==> OnTime(Opened(db, session, task, thread, now))
  {
  }

  lemma OpenedStatus(db: Db, session: nat, task: nat, thread: nat, now: int)
    requires OneClaim(db) && StatusInv(db) && session !in db.sessions && task !in db.tasks
    ensures StatusInv(Opened(db, session, task, thread, now))
  {
    var after := Opened(db, session, task, thread, now);
    assert after.tasks[task].session == session && HasTask(after, session);
    assert after.tickets == db.tickets;
    forall s | s in after.sessions && s != session
      ensures StatusOk(after, s)
    {
      assert StatusOk(db, s);
      assert HasTicket(after, s) == HasTicket(db, s);
      if HasTask(db, s) {
        var t :| t in db.tasks && db.tasks[t].session == s;
        assert after.tasks[t] == db.tasks[t];
      }
    }
  }

  lemma RowWritten(db: Db, s: nat, row: Session, threads: map<nat, ThreadStatus>)
    requires OneClaim(db) && s in db.sessions && row.startedAt == db.sessions[s].startedAt
    ensures var after := db.(sessions := db.sessions[s := row], threads := threads);
            && OneClaim(after) && (OnTime(db) ==> OnTime(after))
            && (StatusInv(db) ==> (StatusInv(after) <==> StatusOk(after, s)))
  {
    var after := db.(sessions := db.sessions[s := row], threads := threads);
    if StatusInv(db) && StatusOk(after, s) {
      forall x | x in after.sessions
        ensures StatusOk(after, x)
      {
        assert StatusOk(db, x);
      }
    }
  }

  lemma ProcessedKeeps(db: Db, task: nat, escalate: bool, ticket: nat, now: int)
    requires OneClaim(db) && task in db.tasks && ticket !in db.tickets
    ensures OneClaim(Processed(db, task, escalate, ticket, now))
    ensures OnTime(db) && db.tasks[task].executeAt <= now ==> OnTime(Processed(db, task, escalate, ticket, now))
  {
  }

  lemma TakenStatus(db: Db, s: nat, admin: nat)
    requires OneClaim(db) && StatusInv(db) && s in db.sessions
    ensures StatusInv(Taken(db, s, admin)) <==> db.sessions[s].status != AutoEscalated
  {
    var after := Taken(db, s, admin);
    assert StatusOk(db, s);
    RowWritten(db, s, after.sessions[s], after.threads);
    assert HasTicket(after, s) == HasTicket(db, s);
  }

  lemma EndedStatus(db: Db, s: nat)
    requires OneClaim(db) && StatusInv(db) && s in db.sessions
    ensures StatusInv(Ended(db, s)) <==> db.sessions[s].status in {Active, Resolved}
  {
    var after := Ended(db, s);
    assert StatusOk(db, s);
    RowWritten(db, s, after.sessions[s], after.threads);
    assert HasTicket(after, s) == HasTicket(db, s);
  }

  // A poller's commit is right exactly when what it read of the session still holds.
  lemma ProcessedStatus(db: Db, task: nat, escalate: bool, ticket: nat, now: int)
    requires OneClaim(db) && StatusInv(db) && task in db.tasks && ticket !in db.tickets
    ensures StatusInv(Processed(db, task, escalate, ticket, now))
            <==> (escalate <==> db.sessions[db.tasks[task].session].status == Pending)
  {
    var after := Processed(db, task, escalate, ticket, now);
    var own := db.tasks[task].session;
    OwnSession(db, task, escalate, ticket, now);
    forall s | s in after.sessions && s != own
      ensures StatusOk(after, s)
    {
      assert StatusOk(db, s);
      OtherSession(db, task, escalate, ticket, now, s);
    }
  }

  lemma OwnSession(db: Db, task: nat, escalate: bool, ticket: nat, now: int)
    requires OneClaim(db) && StatusInv(db) && task in db.tasks && ticket !in db.tickets
    ensures var own := db.tasks[task].session;
            StatusOk(Processed(db, task, escalate, ticket, now), own)
            <==> (escalate <==> db.sessions[own].status == Pending)
  {
    var after, own := Processed(db, task, escalate, ticket, now), db.tasks[task].session;
    assert StatusOk(db, own) && !HasTicket(db, own) && !HasTask(after, own);
    if escalate {
      assert after.tickets[ticket].session == own && HasTicket(after, own);
      assert after.sessions[own].admin == db.sessions[own].admin;
    } else {
      assert !HasTicket(after, own);
    }
  }

  lemma OtherSession(db: Db, task: nat, escalate: bool, ticket: nat, now: int, s: nat)
    requires OneClaim(db) && task in db.tasks && ticket !in db.tickets && s != db.tasks[task].session
    ensures var after := Processed(db, task, escalate, ticket, now);
            HasTask(after, s) == HasTask(db, s) && HasTicket(after, s) == HasTicket(db, s)
  {
    var after := Processed(db, task, escalate, ticket, now);
    if HasTask(db, s) {
      var t :| t in db.tasks && db.tasks[t].session == s;
      assert after.tasks[t] == db.tasks[t];
    }
    if HasTicket(db, s) {
      var k :| k in db.tickets && db.tickets[k].session == s;
      assert after.tickets[k] == db.tickets[k];
    }
  }

  lemma ApplyKeeps(db: Db, tx: Tx)
    requires Inv(db) && Can(db, tx)
    ensures Inv(Apply(db, tx))
  {
    match tx
    case Notify(session, task, thread, now) =>
      OpenedKeeps(db, session, task, thread, now);
      OpenedStatus(db, session, task, thread, now);
    case Take(s, admin) =>
      if s in db.sessions && db.sessions[s].status == Pending {
        TakenStatus(db, s, admin);
        RowWritten(db, s, Taken(db, s, admin).sessions[s], Taken(db, s, admin).threads);
      }
    case End(s) =>
      if s in db.sessions && db.sessions[s].status == Active {
        EndedStatus(db, s);
        RowWritten(db, s, Ended(db, s).sessions[s], Ended(db, s).threads);
      }
    case Poll(task, ticket, now) =>
      ProcessedKeeps(db, task, db.sessions[db.tasks[task].session].status == Pending, ticket, now);
      ProcessedStatus(db, task, db.sessions[db.tasks[task].session].status == Pending, ticket, now);
  }

  ghost predicate LegalTxs(db: Db, txs: seq<Tx>)
    decreases |txs|
  {
    txs == [] || (Can(db, txs[0]) && LegalTxs(Apply(db, txs[0]), txs[1..]))
  }

  ghost function ApplyAll(db: Db, txs: seq<Tx>): Db
    decreases |txs|
  {
    if txs == [] then db else ApplyAll(Apply(db, txs[0]), txs[1..])
  }

  lemma {:induction false} AtomicRuns(db: Db, txs: seq<Tx>)
    requires Inv(db) && LegalTxs(db, txs)
    ensures Inv(ApplyAll(db, txs))
    decreases |txs|
  {
    if txs != [] {
      ApplyKeeps(db, txs[0]);
      AtomicRuns(Apply(db, txs[0]), txs[1..]);
    }
  }

  const NO_ROWS := Db(map[], map[], map[], map[])

  // With atomic transactions, in every run: at most one task and ticket per session, a pending
  // session has its task, a ticket exists exactly for auto-escalated sessions, no session is both
  // taken and escalated, and none is escalated early.
  lemma EveryAtomicRun(txs: seq<Tx>)
    requires LegalTxs(NO_ROWS, txs)
    ensures Inv(ApplyAll(NO_ROWS, txs))
  {
    AtomicRuns(NO_ROWS, txs);
  }

  // ---------- The thread follows its sessions, unless two of them share it ----------

  ghost predicate ActiveOn(db: Db, s: nat, thread: nat) {
    s in db.sessions && db.sessions[s].status == Active && db.sessions[s].thread == thread
  }

  predicate InIntervention(db: Db, thread: nat) {
    thread in db.threads && db.threads[thread] == HumanIntervention
  }

  // A thread is in human_intervention exactly while one of its sessions is active.
  ghost predicate ThreadsOk(db: Db) {
    forall thread: nat :: InIntervention(db, thread) <==> exists s :: ActiveOn(db, s, thread)
  }

  // An active session is ended while another one is active on the same thread.
  ghost predicate EndsShared(db: Db, tx: Tx) {
    && tx.End? && tx.session in db.sessions && db.sessions[tx.session].status == Active
    && exists other :: other != tx.session && ActiveOn(db, other, db.sessions[tx.session].thread)
  }

  lemma SameActive(db: Db, after: Db)
    requires ThreadsOk(db) && after.threads == db.threads
    requires forall s, thread :: ActiveOn(after, s, thread) <==> ActiveOn(db, s, thread)
    ensures ThreadsOk(after)
  {
    forall thread: nat
      ensures InIntervention(after, thread) <==> exists s :: ActiveOn(after, s, thread)
    {
      assert InIntervention(db, thread) <==> exists s :: ActiveOn(db, s, thread);
      if s :| ActiveOn(db, s, thread) { assert ActiveOn(after, s, thread); }
    }
  }

  lemma TakenThreads(db: Db, session: nat, admin: nat)
    requires ThreadsOk(db) && session in db.sessions && db.sessions[session].status == Pending
    ensures ThreadsOk(Taken(db, session, admin))
  {
    var after, own := Taken(db, session, admin), db.sessions[session].thread;
    forall thread: nat
      ensures InIntervention(after, thread) <==> exists s :: ActiveOn(after, s, thread)
    {
      if thread == own {
        assert ActiveOn(after, session, thread);
      } else {
        assert InIntervention(db, thread) == InIntervention(after, thread);
        if s :| ActiveOn(db, s, thread) { assert ActiveOn(after, s, thread); }
        if s :| ActiveOn(after, s, thread) { assert ActiveOn(db, s, thread); }
      }
    }
  }

  lemma EndedThreads(db: Db, session: nat)
    requires ThreadsOk(db) && session in db.sessions && db.sessions[session].status == Active
    ensures ThreadsOk(Ended(db, session)) <==> !EndsShared(db, End(session))
  {
    var after, own := Ended(db, session), db.sessions[session].thread;
    if other :| other != session && ActiveOn(db, other, own) {
      assert ActiveOn(after, other, own) && !InIntervention(after, own);
    }
    forall thread: nat | thread != own || !EndsShared(db, End(session))
      ensures InIntervention(after, thread) <==> exists s :: ActiveOn(after, s, thread)
    {
      if thread == own {
        assert forall s :: ActiveOn(after, s, own) ==> s != session && ActiveOn(db, s, own);
      } else {
        assert InIntervention(db, thread) == InIntervention(after, thread);
        if s :| ActiveOn(db, s, thread) { assert ActiveOn(after, s, thread); }
        if s :| ActiveOn(after, s, thread) { assert ActiveOn(db, s, thread); }
      }
    }
  }

  // A transaction keeps threads and sessions together exactly when it does not end a session whose
  // thread has another active one.
  lemma ThreadsKeptIff(db: Db, tx: Tx)
    requires Inv(db) && ThreadsOk(db) && Can(db, tx)
    ensures ThreadsOk(Apply(db, tx)) <==> !EndsShared(db, tx)
  {
    match tx
    case Take(session, admin) =>
      if session in db.sessions && db.sessions[session].status == Pending { TakenThreads(db, session, admin); }
    case End(session) =>
      if session in db.sessions && db.sessions[session].status == Active { EndedThreads(db, session); }
    case _ => SameActive(db, Apply(db, tx));
  }

  ghost predicate ThreadsAlwaysOk(db: Db, txs: seq<Tx>)
    decreases |txs|
  {
    ThreadsOk(db) && (txs == [] || ThreadsAlwaysOk(Apply(db, txs[0]), txs[1..]))
  }

  ghost predicate NeverEndsShared(db: Db, txs: seq<Tx>)
    decreases |txs|
  {
    txs == [] || (!EndsShared(db, txs[0]) && NeverEndsShared(Apply(db, txs[0]), txs[1..]))
  }

  lemma {:induction false} ThreadsFollow(db: Db, txs: seq<Tx>)
    requires Inv(db) && ThreadsOk(db) && LegalTxs(db, txs)
    ensures ThreadsAlwaysOk(db, txs) <==> NeverEndsShared(db, txs)
    decreases |txs|
  {
    if txs != [] {
      ApplyKeeps(db, txs[0]);
      ThreadsKeptIff(db, txs[0]);
      if !EndsShared(db, txs[0]) { ThreadsFollow(Apply(db, txs[0]), txs[1..]); }
    }
  }

  // In a run of atomic transactions a thread is in human_intervention exactly while one of its
  // sessions is active, all along, if and only if no session is ended while another one is active on
  // its thread.
  lemma ThreadsFollowIff(db: Db, txs: seq<Tx>)
    requires db == NO_ROWS && LegalTxs(db, txs)
    ensures ThreadsAlwaysOk(db, txs) <==> NeverEndsShared(db, txs)
  {
    assert Inv(db) && ThreadsOk(db);
    ThreadsFollow(db, txs);
  }

  lemma OneTx(db: Db, tx: Tx, rest: seq<Tx>)
    requires Can(db, tx)
    ensures LegalTxs(db, [tx] + rest) <==> LegalTxs(Apply(db, tx), rest)
    ensures ApplyAll(db, [tx] + rest) == ApplyAll(Apply(db, tx), rest)
  {
    assert ([tx] + rest)[1..] == rest;
  }

  // Two sessions of one thread: ending the first hands the thread back while the second is active.
  lemma SharedThread(thread: nat, now: int) returns (txs: seq<Tx>, end: Db)
    ensures LegalTxs(NO_ROWS, txs) && ApplyAll(NO_ROWS, txs) == end
    ensures ActiveOn(end, 2, thread) && !InIntervention(end, thread)
  {
    var one, two := Notify(1, 1, thread, now), Notify(2, 2, thread, now);
    var take1, take2, end1 := Take(1, 1), Take(2, 2), End(1);
    var d1 := Apply(NO_ROWS, one);
    var d2 := Apply(d1, two);
    var d3 := Apply(d2, take1);
    var d4 := Apply(d3, take2);
    end := Apply(d4, end1);
    OneTx(d4, end1, []);
    txs := [end1] + [];
    OneTx(d3, take2, txs);
    txs := [take2] + txs;
    OneTx(d2, take1, txs);
    txs := [take1] + txs;
    OneTx(d1, two, txs);
    txs := [two] + txs;
    OneTx(NO_ROWS, one, txs);
    txs := [one] + txs;
  }

  // ---------- Runs at statement granularity ----------

  // A poller holds the row lock of its task from the locking SELECT to its commit; in between it
  // reads the session, whose row it does not lock. An admin's transaction likewise reads the
  // session first and writes it at commit.
  datatype Poller = Locked(task: nat) | Saw(task: nat, pending: bool)

  datatype Admin = Taking(session: nat) | Ending(session: nat)

  datatype System = System(db: Db, clock: int, pollers: map<nat, Poller>, admins: map<nat, Admin>)

  datatype Step =
    | Open(session: nat, task: nat, thread: nat)
    | Tick(now: int)
    | Lock(p: nat, task: nat)
    | Look(p: nat)
    | Commit(p: nat, ticket: nat)
    | Abort(p: nat)
    | TakeLook(a: nat, session: nat)
    | EndLook(a: nat, session: nat)
    | AdminCommit(a: nat)
    | AdminAbort(a: nat)

  ghost function Unlocked(s: System): set<nat> {
    set t | t in s.db.tasks && forall p :: p in s.pollers ==> s.pollers[p].task != t
  }

  ghost predicate Enabled(s: System, step: Step) {
    match step
    case Open(session, task, _) => session !in s.db.sessions && task !in s.db.tasks
    case Tick(now) => s.clock <= now
    case Lock(p, task) => p !in s.pollers && EarliestDue(s.db.tasks, Unlocked(s), task, s.clock)
    case Look(p) => p in s.pollers && s.pollers[p].Locked?
    case Commit(p, ticket) => p in s.pollers && s.pollers[p].Saw? && ticket !in s.db.tickets
    case Abort(p) => p in s.pollers
    case TakeLook(a, session) => a !in s.admins && session in s.db.sessions && s.db.sessions[session].status == Pending
    case EndLook(a, session) => a !in s.admins && session in s.db.sessions && s.db.sessions[session].status == Active
    case AdminCommit(a) => a in s.admins
    case AdminAbort(a) => a in s.admins
  }

  // Locks are exclusive, locked tasks exist and are due, and transactions refer to rows.
  ghost predicate LockInv(s: System) {
    && (forall p :: p in s.pollers ==>
          s.pollers[p].task in s.db.tasks && s.db.tasks[s.pollers[p].task].executeAt <= s.clock)
    && (forall p, p' :: p in s.pollers && p' in s.pollers && s.pollers[p].task == s.pollers[p'].task ==> p == p')
    && (forall a :: a in s.admins ==> s.admins[a].session in s.db.sessions)
  }

  ghost predicate SysInv(s: System) {
    LockInv(s) && OneClaim(s.db) && OnTime(s.db)
  }

  predicate SessionPending(db: Db, task: nat) {
    && task in db.tasks && db.tasks[task].session in db.sessions
    && db.sessions[db.tasks[task].session].status == Pending
  }

  // The transaction that commits still finds its rows; SysInv makes this so.
  predicate Commits(s: System, step: Step) {
    || (step.Commit? && step.p in s.pollers && s.pollers[step.p].Saw? && s.pollers[step.p].task in s.db.tasks
        && s.db.tasks[s.pollers[step.p].task].session in s.db.sessions)
    || (step.AdminCommit? && step.a in s.admins && s.admins[step.a].session in s.db.sessions)
  }

  ghost function Next(s: System, step: Step): System
    requires Enabled(s, step)
  {
    match step
    case Open(session, task, thread) => s.(db := Opened(s.db, session, task, thread, s.clock))
    case Tick(now) => s.(clock := now)
    case Lock(p, task) => s.(pollers := s.pollers[p := Locked(task)])
    case Look(p) =>
      var task := s.pollers[p].task;
      s.(pollers := s.pollers[p := Saw(task, SessionPending(s.db, task))])
    case Commit(p, ticket) =>
      s.(db := if Commits(s, step) then Processed(s.db, s.pollers[p].task, s.pollers[p].pending, ticket, s.clock)
         else s.db,
         pollers := s.pollers - {p})
    case Abort(p) => s.(pollers := s.pollers - {p})
    case TakeLook(a, session) => s.(admins := s.admins[a := Taking(session)])
    case EndLook(a, session) => s.(admins := s.admins[a := Ending(session)])
    case AdminCommit(a) =>
      s.(db := if !Commits(s, step) then s.db
               else if s.admins[a].Taking? then Taken(s.db, s.admins[a].session, a)
                  else Ended(s.db, s.admins[a].session),
         admins := s.admins - {a})
    case AdminAbort(a) => s.(admins := s.admins - {a})
  }

  lemma RowsKeep(s: System, step: Step)
    requires SysInv(s) && Enabled(s, step)
    ensures OneClaim(Next(s, step).db) && OnTime(Next(s, step).db)
  {
    match step
    case Open(session, task, thread) => OpenedKeeps(s.db, session, task, thread, s.clock);
    case Commit(p, ticket) => ProcessedKeeps(s.db, s.pollers[p].task, s.pollers[p].pending, ticket, s.clock);
    case AdminCommit(a) =>
      var x := s.admins[a].session;
      var after := if s.admins[a].Taking? then Taken(s.db, x, a) else Ended(s.db, x);
      RowWritten(s.db, x, after.sessions[x], after.threads);
    case _ =>
  }

  lemma CommitKeepsLocks(s: System, step: Step)
    requires SysInv(s) && Enabled(s, step) && step.Commit?
    ensures LockInv(Next(s, step))
  {
    var t, done := Next(s, step), s.pollers[step.p].task;
    assert t.db.tasks == s.db.tasks - {done};
    assert t.db.sessions.Keys == s.db.sessions.Keys;
    forall p | p in t.pollers
      ensures t.pollers[p].task in t.db.tasks && t.db.tasks[t.pollers[p].task] == s.db.tasks[s.pollers[p].task]
    {
      assert p != step.p && s.pollers[p].task != done;
    }
  }

  lemma LockKeepsLocks(s: System, step: Step)
    requires SysInv(s) && Enabled(s, step) && step.Lock?
    ensures LockInv(Next(s, step))
  {
    assert forall p :: p in s.pollers ==> s.pollers[p].task != step.task;
  }

  lemma AdminKeepsLocks(s: System, step: Step)
    requires SysInv(s) && Enabled(s, step) && step.AdminCommit?
    ensures LockInv(Next(s, step))
  {
    var t := Next(s, step);
    assert t.db.tasks == s.db.tasks && t.db.sessions.Keys == s.db.sessions.Keys;
  }

  lemma OpenKeepsLocks(s: System, step: Step)
    requires SysInv(s) && Enabled(s, step) && step.Open?
    ensures LockInv(Next(s, step))
  {
    var t := Next(s, step);
    assert t.db.tasks == s.db.tasks[step.task := Task(step.session, step.thread, s.clock + ESCALATION_DELAY)];
    assert t.pollers == s.pollers && t.admins == s.admins && s.db.sessions.Keys <= t.db.sessions.Keys;
  }

  lemma PollerKeepsLocks(s: System, step: Step)
    requires SysInv(s) && Enabled(s, step) && (step.Look? || step.Abort?)
    ensures LockInv(Next(s, step))
  {
    var t := Next(s, step);
    assert t.db == s.db && t.admins == s.admins && t.clock == s.clock;
    assert forall p :: p in t.pollers ==> p in s.pollers && t.pollers[p].task == s.pollers[p].task;
  }

  lemma SameLocks(s: System, t: System)
    requires LockInv(s) && t.db == s.db && t.pollers == s.pollers && s.clock <= t.clock
    requires forall a :: a in t.admins ==> t.admins[a].session in s.db.sessions
    ensures LockInv(t)
  {
  }

  lemma ReaderKeepsLocks(s: System, step: Step)
    requires SysInv(s) && Enabled(s, step) && (step.TakeLook? || step.EndLook? || step.AdminAbort? || step.Tick?)
    ensures LockInv(Next(s, step))
  {
    SameLocks(s, Next(s, step));
  }

  lemma LocksKeep(s: System, step: Step)
    requires SysInv(s) && Enabled(s, step)
    ensures LockInv(Next(s, step))
  {
    if step.Commit? { CommitKeepsLocks(s, step); }
    else if step.AdminCommit? { AdminKeepsLocks(s, step); }
    else if step.Lock? { LockKeepsLocks(s, step); }
    else if step.Open? { OpenKeepsLocks(s, step); }
    else if step.Look? || step.Abort? { PollerKeepsLocks(s, step); }
    else { ReaderKeepsLocks(s, step); }
  }

  lemma StepKeeps(s: System, step: Step)
    requires SysInv(s) && Enabled(s, step)
    ensures SysInv(Next(s, step))
  {
    RowsKeep(s, step);
    LocksKeep(s, step);
  }

  ghost predicate Legal(s: System, steps: seq<Step>)
    decreases |steps|
  {
    steps == [] || (Enabled(s, steps[0]) && Legal(Next(s, steps[0]), steps[1..]))
  }

  ghost function Run(s: System, steps: seq<Step>): System
    requires Legal(s, steps)
    decreases |steps|
  {
    if steps == [] then s else Run(Next(s, steps[0]), steps[1..])
  }

  // However many pollers and admins interleave, statement by statement: at most one task and ticket
  // per session, and no ticket before the delay has passed.
  lemma {:induction false} AtMostOneClaim(s: System, steps: seq<Step>)
    requires SysInv(s) && Legal(s, steps)
    ensures SysInv(Run(s, steps))
    decreases |steps|
  {
    if steps != [] {
      StepKeeps(s, steps[0]);
      AtMostOneClaim(Next(s, steps[0]), steps[1..]);
    }
  }

  // Nobody at work on an empty database.
  ghost predicate Untouched(s: System) {
    s.db == NO_ROWS && s.pollers == map[] && s.admins == map[]
  }

  lemma UntouchedInv(s: System)
    requires Untouched(s)
    ensures SysInv(s) && StatusInv(s.db)
  {
  }

  lemma EveryInterleaving(s: System, steps: seq<Step>)
    requires Untouched(s) && Legal(s, steps)
    ensures OneClaim(Run(s, steps).db) && OnTime(Run(s, steps).db)
  {
    AtMostOneClaim(s, steps);
  }

  // ---------- Commits on a session that has changed ----------

  // The session a commit is about.
  function Subject(s: System, step: Step): nat
    requires Commits(s, step)
  {
    if step.Commit? then s.db.tasks[s.pollers[step.p].task].session else s.admins[step.a].session
  }

  // What the transaction read of the session - that it was pending, or active, or for a poller that
  // it was not pending - no longer holds when it commits.
  predicate Clashes(s: System, step: Step) {
    Commits(s, step) &&
      var status := s.db.sessions[Subject(s, step)].status;
      if step.Commit? then s.pollers[step.p].pending != (status == Pending)
      else if s.admins[step.a].Taking? then status != Pending
      else status != Active
  }

  // The transitions of the protocol.
  predicate Moves(from: Status, to: Status) {
    (from == Pending && (to == Active || to == AutoEscalated)) || (from == Active && to == Resolved)
  }

  // A commit moves its session along the protocol; a poller may also leave alone a session that is
  // not pending.
  ghost predicate Proper(s: System, step: Step)
    requires SysInv(s) && Enabled(s, step) && Commits(s, step)
  {
    var x, after := Subject(s, step), Next(s, step).db;
    || Moves(s.db.sessions[x].status, after.sessions[x].status)
    || (step.Commit? && after.sessions == s.db.sessions && after.tickets == s.db.tickets
          && s.db.sessions[x].status != Pending)
  }

  lemma CommitsOf(s: System, step: Step)
    requires SysInv(s) && Enabled(s, step)
    ensures Commits(s, step) <==> step.Commit? || step.AdminCommit?
  {
  }

  // A commit is a transition of the protocol exactly when it does not clash.
  lemma ProperIff(s: System, step: Step)
    requires SysInv(s) && Enabled(s, step) && Commits(s, step)
    ensures Proper(s, step) <==> !Clashes(s, step)
  {
    if step.Commit? && s.pollers[step.p].pending {
      assert step.ticket in Next(s, step).db.tickets && step.ticket !in s.db.tickets;
    }
  }

  // Of the clashing commits these leave rows that contradict each other: a poller's, a take of an
  // escalated session, and an end of a session that was never taken.
  predicate Contradicts(s: System, step: Step) {
    Clashes(s, step) &&
      (step.AdminCommit? ==>
         var status := s.db.sessions[Subject(s, step)].status;
         status == AutoEscalated || (s.admins[step.a].Ending? && status == Pending))
  }

  // The claims about statuses survive a step exactly when it is not one of those.
  lemma StatusKeptIff(s: System, step: Step)
    requires SysInv(s) && StatusInv(s.db) && Enabled(s, step)
    ensures StatusInv(Next(s, step).db) <==> !Contradicts(s, step)
  {
    CommitsOf(s, step);
    match step
    case Open(session, task, thread) => OpenedStatus(s.db, session, task, thread, s.clock);
    case Commit(p, ticket) => ProcessedStatus(s.db, s.pollers[p].task, s.pollers[p].pending, ticket, s.clock);
    case AdminCommit(a) =>
      if s.admins[a].Taking? { TakenStatus(s.db, s.admins[a].session, a); }
      else { EndedStatus(s.db, s.admins[a].session); }
    case _ =>
  }

  ghost predicate ClashFree(s: System, steps: seq<Step>)
    requires Legal(s, steps)
    decreases |steps|
  {
    steps == [] || (!Clashes(s, steps[0]) && ClashFree(Next(s, steps[0]), steps[1..]))
  }

  predicate TakesNow(s: System, step: Step, session: nat) {
    step.AdminCommit? && step.a in s.admins && s.admins[step.a] == Taking(session)
  }

  // How many takes of a session are committed, each of them answered with "active".
  ghost function Takes(s: System, steps: seq<Step>, session: nat): nat
    requires Legal(s, steps)
    decreases |steps|
  {
    if steps == [] then 0
    else (if TakesNow(s, steps[0], session) then 1 else 0) + Takes(Next(s, steps[0]), steps[1..], session)
  }

  predicate MayBeTaken(db: Db, session: nat) {
    session in db.sessions ==> db.sessions[session].status == Pending
  }

  lemma TakenOnceStep(s: System, step: Step, session: nat)
    requires SysInv(s) && Enabled(s, step) && !Clashes(s, step)
    ensures MayBeTaken(Next(s, step).db, session) || TakesNow(s, step, session) ==> MayBeTaken(s.db, session)
    ensures TakesNow(s, step, session) ==> !MayBeTaken(Next(s, step).db, session)
  {
    CommitsOf(s, step);
  }

  // Without clashes the claims about statuses hold at every point of every interleaving, and no
  // session is taken twice.
  lemma {:induction false} ClashFreeRuns(s: System, steps: seq<Step>, session: nat)
    requires SysInv(s) && StatusInv(s.db) && Legal(s, steps) && ClashFree(s, steps)
    ensures StatusInv(Run(s, steps).db)
    ensures Takes(s, steps, session) <= if MayBeTaken(s.db, session) then 1 else 0
    decreases |steps|
  {
    if steps != [] {
      StatusKeptIff(s, steps[0]);
      StepKeeps(s, steps[0]);
      TakenOnceStep(s, steps[0], session);
      ClashFreeRuns(Next(s, steps[0]), steps[1..], session);
    }
  }

  // From an empty system.
  lemma EveryClashFreeRun(s: System, steps: seq<Step>, session: nat)
    requires Untouched(s) && Legal(s, steps) && ClashFree(s, steps)
    ensures StatusInv(Run(s, steps).db) && Takes(s, steps, session) <= 1
  {
    UntouchedInv(s);
    ClashFreeRuns(s, steps, session);
  }

  lemma RunStep(s: System, step: Step, rest: seq<Step>, session: nat)
    requires Enabled(s, step) && Legal(Next(s, step), rest)
    ensures Legal(s, [step] + rest) && Run(s, [step] + rest) == Run(Next(s, step), rest)
    ensures Takes(s, [step] + rest, session)
            == (if TakesNow(s, step, session) then 1 else 0) + Takes(Next(s, step), rest, session)
  {
    assert ([step] + rest)[1..] == rest;
  }

  // From the point where the task is due and the admin has read the session as pending.
  lemma Race(s: System, session: nat, task: nat, a: nat, p: nat, ticket: nat) returns (steps: seq<Step>, end: System)
    requires s.pollers == map[] && s.admins == map[a := Taking(session)]
    requires session in s.db.sessions && s.db.sessions[session].status == Pending
    requires s.db.tickets == map[] && s.db.tasks.Keys == {task} && s.db.tasks[task].session == session
    requires s.db.tasks[task].executeAt <= s.clock
    ensures Legal(s, steps) && Run(s, steps) == end
    ensures session in end.db.sessions && end.db.sessions[session].status == Active
    ensures end.db.sessions[session].admin == Some(a) && HasTicket(end.db, session)
  {
    assert Unlocked(s) == {task};
    var s1 := Next(s, Lock(p, task));
    var s2 := Next(s1, Look(p));
    var s3 := Next(s2, Commit(p, ticket));
    end := Next(s3, AdminCommit(a));
    assert end.db.tickets[ticket].session == session;
    RunStep(s3, AdminCommit(a), [], session);
    steps := [AdminCommit(a)] + [];
    RunStep(s2, Commit(p, ticket), steps, session);
    steps := [Commit(p, ticket)] + steps;
    RunStep(s1, Look(p), steps, session);
    steps := [Look(p)] + steps;
    RunStep(s, Lock(p, task), steps, session);
    steps := [Lock(p, task)] + steps;
  }

  ghost predicate Leads(s: System, step: Step, t: System) {
    Enabled(s, step) && t == Next(s, step)
  }

  lemma ThreeSteps(s: System, x: Step, s1: System, y: Step, s2: System, z: Step, s3: System,
                   later: seq<Step>, session: nat)
      returns (steps: seq<Step>)
    requires Leads(s, x, s1) && Leads(s1, y, s2) && Leads(s2, z, s3) && Legal(s3, later)
    requires !TakesNow(s1, y, session) && !TakesNow(s2, z, session)
    ensures Legal(s, steps) && Run(s, steps) == Run(s3, later)
    ensures Takes(s, steps, session) == (if TakesNow(s, x, session) then 1 else 0) + Takes(s3, later, session)
  {
    RunStep(s2, z, later, session);
    RunStep(s1, y, [z] + later, session);
    RunStep(s, x, [y] + ([z] + later), session);
    steps := [x] + ([y] + ([z] + later));
  }

  lemma OpenAndLook(s: System, session: nat, task: nat, thread: nat, a: nat, now: int)
      returns (s1: System, s2: System, s3: System)
    requires Untouched(s) && now == s.clock + ESCALATION_DELAY
    ensures Leads(s, Open(session, task, thread), s1) && Leads(s1, TakeLook(a, session), s2) && Leads(s2, Tick(now), s3)
    ensures s3.pollers == map[] && s3.admins == map[a := Taking(session)] && s3.clock == now
    ensures s3.db.sessions == map[session := Session(thread, Pending, s.clock, None)] && s3.db.tickets == map[]
    ensures s3.db.tasks == map[task := Task(session, thread, now)]
  {
    s1 := Next(s, Open(session, task, thread));
    s2 := Next(s1, TakeLook(a, session));
    s3 := Next(s2, Tick(now));
  }

  // And clashes do happen. From an empty system, with one session opened: an admin reads the session
  // as pending, a poller escalates it, and the admin's unconditional update still makes it active.
  // Taken by an admin, it also has a ticket.
  lemma TakenAndEscalated(s: System, session: nat, task: nat, thread: nat, a: nat, p: nat, ticket: nat)
      returns (steps: seq<Step>, end: System)
    requires Untouched(s)
    ensures Legal(s, steps) && Run(s, steps) == end
    ensures session in end.db.sessions && end.db.sessions[session].status == Active
    ensures end.db.sessions[session].admin == Some(a) && HasTicket(end.db, session)
  {
    var now := s.clock + ESCALATION_DELAY;
    var s1, s2, s3 := OpenAndLook(s, session, task, thread, a, now);
    steps, end := Race(s3, session, task, a, p, ticket);
    steps := ThreeSteps(s, Open(session, task, thread), s1, TakeLook(a, session), s2, Tick(now), s3, steps, session);
  }

  // Admin a, who has read the session as pending, takes it, and c ends it.
  lemma TakeAndEnd(s: System, session: nat, a: nat, b: nat, c: nat) returns (s1: System, s2: System, s3: System)
    requires a != b && c !in s.admins && a in s.admins && b in s.admins && session in s.db.sessions
    requires s.admins[a] == Taking(session) && s.admins[b] == Taking(session)
    ensures Leads(s, AdminCommit(a), s1) && Leads(s1, EndLook(c, session), s2) && Leads(s2, AdminCommit(c), s3)
    ensures TakesNow(s, AdminCommit(a), session) && !TakesNow(s2, AdminCommit(c), session)
    ensures b in s3.admins && s3.admins[b] == Taking(session)
    ensures session in s3.db.sessions && s3.db.sessions[session].status == Resolved
  {
    s1 := Next(s, AdminCommit(a));
    s2 := Next(s1, EndLook(c, session));
    s3 := Next(s2, AdminCommit(c));
  }

  lemma OpenAndLookTwice(s: System, session: nat, task: nat, thread: nat, a: nat, b: nat)
      returns (s1: System, s2: System, s3: System)
    requires Untouched(s) && a != b
    ensures Leads(s, Open(session, task, thread), s1) && Leads(s1, TakeLook(a, session), s2)
    ensures Leads(s2, TakeLook(b, session), s3)
    ensures s3.admins == map[a := Taking(session), b := Taking(session)] && session in s3.db.sessions
  {
    s1 := Next(s, Open(session, task, thread));
    s2 := Next(s1, TakeLook(a, session));
    s3 := Next(s2, TakeLook(b, session));
  }

  // Two admins read the same session as pending. The first takes it and it is ended; the second's
  // update then makes the resolved session active again, and both takes are answered with "active".
  lemma TakenTwice(s: System, session: nat, task: nat, thread: nat, a: nat, b: nat, c: nat)
      returns (first: seq<Step>, resolved: System, end: System)
    requires Untouched(s) && a != b && b != c && a != c
    ensures Legal(s, first) && Run(s, first) == resolved && Takes(s, first, session) == 1
    ensures session in resolved.db.sessions && resolved.db.sessions[session].status == Resolved
    ensures Leads(resolved, AdminCommit(b), end) && TakesNow(resolved, AdminCommit(b), session)
    ensures session in end.db.sessions && end.db.sessions[session].status == Active
    ensures end.db.sessions[session].admin == Some(b)
  {
    var s1, s2, s3 := OpenAndLookTwice(s, session, task, thread, a, b);
    var s4, s5;
    s4, s5, resolved := TakeAndEnd(s3, session, a, b, c);
    end := Next(resolved, AdminCommit(b));
    first := ThreeSteps(s3, AdminCommit(a), s4, EndLook(c, session), s5, AdminCommit(c), resolved, [], session);
    first := ThreeSteps(s, Open(session, task, thread), s1, TakeLook(a, session), s2, TakeLook(b, session),
                        s3, first, session);
  }
}
