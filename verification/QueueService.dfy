/** The code of internal/asyncscan/queue.go as it runs when nobody interrupts it, on its own tables,
    spool directory, channel and vault: each call refines a run of the protocol, so what holds over all
    runs holds of the code. */
module QueueService {
  import opened Basics
  import opened Readers
  import opened AsyncQueue
  import Clamd
  import QueueInvariant
  import QueueTheorems
  import ScanService
  import Vault

  lemma {:induction false} RunsAppend(c: Config, s: State, es: seq<Event>, e: Event)
    requires Runs(c, s, es) && Enabled(c, After(c, s, es), e)
    ensures Runs(c, s, es + [e]) && After(c, s, es + [e]) == Apply(c, After(c, s, es), e)
    decreases |es|
  {
    if es == [] {
      assert [e][1..] == [];
    } else {
      assert (es + [e])[1..] == es[1..] + [e];
      RunsAppend(c, Apply(c, s, es[0]), es[1..], e);
    }
  }

  // ---- What the code keeps, and what the protocol says of it ----

  /** A job as it goes through the channel. */
  datatype Ticket = Ticket(id: JobId, fileName: string, consumer: string)

  function TicketOf(id: JobId, job: Job): Ticket {
    Ticket(id, job.fileName, job.consumer)
  }

  /** The table scan_jobs, the audit log, the spool directory, and the webhooks that were sent; the two
      logs with the job each entry is about. */
  datatype Tables = Tables(rows: map<JobId, Row>, spool: map<JobId, Bytes>,
                           audits: seq<(JobId, Audit)>, posts: seq<(JobId, Hook)>)

  function Get<T>(m: map<JobId, T>, id: JobId): Option<T> {
    if id in m then Some(m[id]) else None
  }

  /** The entries of a log about one job. */
  function Of<T>(log: seq<(JobId, T)>, id: JobId): seq<T> {
    if log == [] then []
    else
      var (about, x) := log[|log| - 1];
      Of(log[..|log| - 1], id) + (if about == id then [x] else [])
  }

  lemma OfAppend<T>(log: seq<(JobId, T)>, about: JobId, x: T, id: JobId)
    ensures Of(log + [(about, x)], id) == Of(log, id) + (if about == id then [x] else [])
  {
    var all := log + [(about, x)];
    assert all[..|all| - 1] == log && all[|all| - 1] == (about, x);
  }

  datatype Trace = Trace(row: Option<Row>, spool: Option<Bytes>, audits: seq<Audit>, posts: seq<Hook>)

  /** What the tables have about a job. */
  function Stored(t: Tables, id: JobId): Trace {
    Trace(Get(t.rows, id), Get(t.spool, id), Of(t.audits, id), Of(t.posts, id))
  }

  function TraceOf(x: Entry): Trace {
    Trace(x.row, x.spool, x.audits, x.hooks)
  }

  /** What the protocol says they have. */
  function Expected(jobs: map<JobId, Entry>, id: JobId): Trace {
    if id in jobs then TraceOf(jobs[id]) else Trace(None, None, [], [])
  }

  ghost predicate Linked(t: Tables, jobs: map<JobId, Entry>) {
    forall id: JobId :: Stored(t, id) == Expected(jobs, id)
  }

  ghost predicate ChannelLinked(channel: seq<Ticket>, s: State) {
    && |channel| == |s.channel|
    && forall i :: 0 <= i < |channel| ==>
         s.channel[i] in s.jobs && channel[i] == TicketOf(s.channel[i], s.jobs[s.channel[i]].job)
  }

  /** A change that concerns one job. */
  lemma LinkedAt(t: Tables, u: Tables, jobs: map<JobId, Entry>, id: JobId, x: Entry)
    requires Linked(t, jobs)
    requires forall j: JobId :: j != id ==> Stored(u, j) == Stored(t, j)
    requires Stored(u, id) == TraceOf(x)
    ensures Linked(u, jobs[id := x])
  {
    forall j: JobId ensures Stored(u, j) == Expected(jobs[id := x], j) {
      assert Stored(t, j) == Expected(jobs, j);
    }
  }

  lemma LinkedRow(t: Tables, jobs: map<JobId, Entry>, id: JobId, row: Option<Row>, x: Entry)
    requires Linked(t, jobs) && id in jobs
    requires TraceOf(x) == TraceOf(jobs[id]).(row := row)
    ensures row.Some? ==> Linked(t.(rows := t.rows[id := row.value]), jobs[id := x])
    ensures row == jobs[id].row ==> Linked(t, jobs[id := x])
  {
    assert Stored(t, id) == Expected(jobs, id);
    if row.Some? {
      LinkedAt(t, t.(rows := t.rows[id := row.value]), jobs, id, x);
    }
    if row == jobs[id].row {
      LinkedAt(t, t, jobs, id, x);
    }
  }

  lemma LinkedSpool(t: Tables, jobs: map<JobId, Entry>, id: JobId, spool: Option<Bytes>, x: Entry)
    requires Linked(t, jobs)
    requires TraceOf(x) == Expected(jobs, id).(spool := spool)
    ensures spool.Some? ==> Linked(t.(spool := t.spool[id := spool.value]), jobs[id := x])
    ensures spool.None? ==> Linked(t.(spool := t.spool - {id}), jobs[id := x])
  {
    assert Stored(t, id) == Expected(jobs, id);
    LinkedAt(t, t.(spool := if spool.Some? then t.spool[id := spool.value] else t.spool - {id}), jobs, id, x);
  }

  lemma LinkedAudit(t: Tables, jobs: map<JobId, Entry>, id: JobId, audit: Audit, x: Entry)
    requires Linked(t, jobs) && id in jobs
    requires TraceOf(x) == TraceOf(jobs[id]).(audits := jobs[id].audits + [audit])
    ensures Linked(t.(audits := t.audits + [(id, audit)]), jobs[id := x])
  {
    assert Stored(t, id) == Expected(jobs, id);
    forall j: JobId ensures Of(t.audits + [(id, audit)], j) == Of(t.audits, j) + (if j == id then [audit] else []) {
      OfAppend(t.audits, id, audit, j);
    }
    LinkedAt(t, t.(audits := t.audits + [(id, audit)]), jobs, id, x);
  }

  lemma LinkedPost(t: Tables, jobs: map<JobId, Entry>, id: JobId, hook: Hook, x: Entry)
    requires Linked(t, jobs) && id in jobs
    requires TraceOf(x) == TraceOf(jobs[id]).(posts := jobs[id].hooks + [hook])
    ensures Linked(t.(posts := t.posts + [(id, hook)]), jobs[id := x])
  {
    assert Stored(t, id) == Expected(jobs, id);
    forall j: JobId ensures Of(t.posts + [(id, hook)], j) == Of(t.posts, j) + (if j == id then [hook] else []) {
      OfAppend(t.posts, id, hook, j);
    }
    LinkedAt(t, t.(posts := t.posts + [(id, hook)]), jobs, id, x);
  }

  /** The same entry for all the tables show. */
  lemma LinkedAgain(t: Tables, jobs: map<JobId, Entry>, id: JobId, x: Entry, y: Entry)
    requires Linked(t, jobs[id := x]) && TraceOf(y) == TraceOf(x)
    ensures Linked(t, jobs[id := y])
  {
    forall j: JobId ensures Stored(t, j) == Expected(jobs[id := y], j) {
      assert Stored(t, j) == Expected(jobs[id := x], j);
    }
  }

  lemma LinkedSame(t: Tables, jobs: map<JobId, Entry>, id: JobId, x: Entry)
    requires Linked(t, jobs) && id in jobs && TraceOf(x) == TraceOf(jobs[id])
    ensures Linked(t, jobs[id := x])
  {
    assert Stored(t, id) == Expected(jobs, id);
    LinkedAt(t, t, jobs, id, x);
  }

  /** Jobs keep their name and consumer. */
  lemma WorkKeepsChannel(c: Config, channel: seq<Ticket>, s: State, w: nat, e: Effect)
    requires ChannelLinked(channel, s) && Enabled(c, s, Work(w, e))
    ensures ChannelLinked(channel, Apply(c, s, Work(w, e)))
  {
  }

  /** Worker `w` got from one point of its job to another, without a fault. */
  predicate Moved(s: State, t: State, w: nat, id: JobId, at: Point) {
    && w < |s.workers| && t.workers == s.workers[w := Busy(id, at)]
    && id in s.jobs && id in t.jobs && Calm(s.jobs[id], t.jobs[id])
  }

  lemma MovedNot(s: State, w: nat, id: JobId, o: Outcome)
    requires BusyAt(s, w) && s.workers[w] == Busy(id, Posting(o, 1))
    ensures Moved(s, s, w, id, Posting(o, 1))
  {
  }

  lemma MovedTwice(s: State, t: State, u: State, w: nat, id: JobId, p: Point, q: Point)
    requires Moved(s, t, w, id, p) && Moved(t, u, w, id, q)
    ensures Moved(s, u, w, id, q)
  {
  }

  function AfterAttempt(o: Outcome, attempt: nat, response: Response): Point {
    if response == Retry && attempt < 3 then Posting(o, attempt + 1) else Leaving(o)
  }

  /** Nothing but the entry of one job is different, and it is the same job. */
  predicate OnlyJob(s: State, t: State, id: JobId) {
    && id in t.jobs && t == s.(jobs := s.jobs[id := t.jobs[id]])
    && (id in s.jobs ==> t.jobs[id].job == s.jobs[id].job)
  }

  lemma OnlyJobTwice(s: State, t: State, u: State, id: JobId)
    requires OnlyJob(s, t, id) && OnlyJob(t, u, id)
    ensures OnlyJob(s, u, id)
  {
  }

  /** Which of the calls that serve one job work, and what becomes of the attempts at its webhook. */
  datatype Io = Io(marks: bool, opens: bool, rewinds: bool, discards: bool, completes: bool, records: bool,
                   fails: bool, leaves: bool, first: Response, second: Response, third: Response)

  predicate Smooth(io: Io) {
    io.marks && io.opens && io.rewinds && io.discards && io.completes && io.records && io.fails && io.leaves
  }

  /** The answer to an attempt, counted from 1. */
  function ResponseTo(io: Io, attempt: nat): Response {
    if attempt == 1 then io.first else if attempt == 2 then io.second else io.third
  }

  /** How often the webhook leaves from this attempt on. */
  function Sendings(io: Io, attempt: nat): nat
    decreases 3 - attempt
  {
    if attempt > 3 || ResponseTo(io, attempt) == Blocked then 0
    else if ResponseTo(io, attempt) == Accepted then 1
    else 1 + Sendings(io, attempt + 1)
  }

  function Repeat<T>(x: T, n: nat): seq<T> {
    if n == 0 then [] else [x] + Repeat(x, n - 1)
  }

  lemma {:induction false} RepeatOnce<T>(x: T, n: nat)
    ensures Repeat(x, n + 1) == Repeat(x, n) + [x]
  {
    if n > 0 {
      RepeatOnce(x, n - 1);
    }
  }

  lemma {:induction false} RepeatAt<T>(x: T, n: nat)
    ensures |Repeat(x, n)| == n && forall i :: 0 <= i < n ==> Repeat(x, n)[i] == x
  {
    if n > 0 {
      RepeatAt(x, n - 1);
    }
  }

  lemma OneMore<T>(s: seq<T>, x: T, n: nat)
    ensures s + Repeat(x, n + 1) == (s + Repeat(x, n)) + [x]
  {
    RepeatOnce(x, n);
  }

  /** How many webhooks leave: one for each attempt up to the first that is accepted, and never more than
      three; a blocked attempt sends nothing and ends it. */
  predicate Delivered(io: Io, n: nat) {
    && (io.first == Accepted ==> n == 1)
    && (io.first == Blocked ==> n == 0)
    && (io.first == Retry && io.second == Accepted ==> n == 2)
    && (io.first == Retry && io.second == Blocked ==> n == 1)
    && (io.first == Retry && io.second == Retry && io.third != Blocked ==> n == 3)
    && (io.first == Retry && io.second == Retry && io.third == Blocked ==> n == 2)
  }

  /** The webhooks sent between two moments are about this job and tell this outcome, in the number that
      the receiver's answers make it; of a job that could not be scanned there are none. */
  predicate Told(was: seq<(JobId, Hook)>, now: seq<(JobId, Hook)>, id: JobId, o: Outcome, io: Io) {
    && was <= now
    && (if o.Unscanned? then now == was else Delivered(io, |now| - |was|))
    && forall i :: |was| <= i < |now| ==> now[i] == (id, HookFor(o))
  }

  lemma SentIsTold(was: seq<(JobId, Hook)>, id: JobId, o: Outcome, io: Io)
    requires !o.Unscanned?
    ensures Told(was, was + Repeat((id, HookFor(o)), Sendings(io, 1)), id, o, io)
  {
    RepeatAt((id, HookFor(o)), Sendings(io, 1));
    assert Sendings(io, 4) == 0;
    assert Sendings(io, 3) == if io.third == Blocked then 0 else 1;
  }

  /** No fault was added to the history of the job. */
  predicate Calm(x: Entry, y: Entry) {
    y.rowFault == x.rowFault && y.auditFault == x.auditFault && y.diskFault == x.diskFault
  }

  /** What the environment has in store for the scan of one job. */
  datatype Turn = Turn(io: Io, x: ScanService.Exchange, d: ScanService.Draw)

  /** What it takes for an infected file to be isolated: a vault, and that it accepts what is read back. */
  predicate IsolationGuard(c: Config, content: Bytes, virus: string, io: Io, d: ScanService.Draw) {
    c.hasVault && Vault.Accepts(c.vault, ScanService.IncomingOf(ReadBack(content, io.rewinds), virus, d))
  }

  /** An infected report has a quarantine ID, and so its webhook's claim a basis, exactly under this
      guard; if the file may fail to be read, no more than under it. */
  predicate Founded(c: Config, o: Outcome, content: Bytes, io: Io, d: ScanService.Draw, readable: bool) {
    o.Reported? && o.report.verdict == Clamd.Infected ==>
      && (o.report.quarantineId != "" ==> IsolationGuard(c, content, o.report.virus, io, d))
      && (readable && IsolationGuard(c, content, o.report.virus, io, d) ==> o.report.quarantineId != "")
  }

  /** What HandOver did is an effect of the protocol. */
  lemma HandOverFits(c: Config, x: Entry, p: Point, rewinds: bool, q: Option<Vault.Incoming>, vault: Vault.State,
                     after: Vault.State, quarId: string)
    requires p.Isolating?
    requires q.Some? ==>
               && Vault.Legal(vault, q.value)
               && q.value.raw == ReadBack(p.content, rewinds) && q.value.virus == p.virus
               && var (t, rec) := Vault.Quarantine(c.vault, vault, q.value);
                  after == t && quarId == if rec.Some? then q.value.id else ""
    requires q.None? ==> quarId == "" && after == vault
    ensures Fits(c, p, Isolate(rewinds, q), vault) && EffectOnVault(c, p, Isolate(rewinds, q), vault) == after
    ensures NextPoint(c, x, p, Isolate(rewinds, q), vault) ==
            Discarding(Report(Clamd.Infected, p.virus, p.sha, quarId, rewinds, q))
    ensures TraceOf(EffectOnEntry(c, x, p, Isolate(rewinds, q), vault)) == TraceOf(x)
    ensures rewinds ==> Calm(x, EffectOnEntry(c, x, p, Isolate(rewinds, q), vault))
  {
  }

  class Queue {
    const cfg: Config
    const store: Vault.Store
    var rows: map<JobId, Row>
    var spool: map<JobId, Bytes>
    var audits: seq<(JobId, Audit)>
    var posts: seq<(JobId, Hook)>
    var channel: seq<Ticket>
    var closed: bool
    // The protocol's side: where it started, the events so far, and the state they lead to.
    ghost const origin: State
    ghost var trace: seq<Event>
    ghost var model: State

    ghost function All(): Tables reads this {
      Tables(rows, spool, audits, posts)
    }

    ghost predicate Ran() reads this {
      Runs(cfg, origin, trace) && After(cfg, origin, trace) == model
    }

    /** The tables, the channel and the vault are what a run of the protocol makes of them. */
    ghost predicate Valid() reads this, store {
      && Ran() && store.cfg == cfg.vault
      && closed == model.closed && store.View() == model.vault
      && Linked(All(), model.jobs) && ChannelLinked(channel, model)
    }

    /** Worker `w` has this job in hand. */
    ghost predicate Serves(w: nat, job: Ticket) reads this {
      BusyAt(model, w) && model.workers[w].id == job.id && job == TicketOf(job.id, model.jobs[job.id].job)
    }

    constructor (cfg: Config, ghost workers: nat, store: Vault.Store)
      requires store.cfg == cfg.vault
      ensures Valid() && this.cfg == cfg && this.store == store
      ensures origin == model == Start(workers, store.View())
    {
      this.cfg, this.store := cfg, store;
      rows, spool, audits, posts, channel, closed := map[], map[], [], [], [], false;
      origin, model, trace := Start(workers, store.View()), Start(workers, store.View()), [];
    }

    /** Records an event of the protocol. */
    ghost method Log(e: Event)
      requires Ran() && Enabled(cfg, model, e)
      modifies this`model, this`trace
      ensures Ran() && model == Apply(cfg, old(model), e) && trace == old(trace) + [e]
    {
      RunsAppend(cfg, origin, trace, e);
      model, trace := Apply(cfg, model, e), trace + [e];
    }

    /** Records an effect of worker `w`, of which the tables and the vault already bear witness. */
    ghost method Step(w: nat, e: Effect)
      requires Ran() && store.cfg == cfg.vault && closed == model.closed && ChannelLinked(channel, model)
      requires BusyAt(model, w) && Fits(cfg, model.workers[w].at, e, model.vault)
      requires Linked(All(), model.jobs[model.workers[w].id :=
                 EffectOnEntry(cfg, model.jobs[model.workers[w].id], model.workers[w].at, e, model.vault)])
      requires store.View() == EffectOnVault(cfg, model.workers[w].at, e, model.vault)
      modifies this`model, this`trace
      ensures Valid() && trace == old(trace) + [Work(w, e)]
      ensures Serves(w, TicketOf(old(model.workers)[w].id, old(model.jobs)[old(model.workers)[w].id].job))
      ensures model.jobs[model.workers[w].id] == EffectOnEntry(cfg, old(model.jobs)[old(model.workers)[w].id],
                                                               old(model.workers)[w].at, e, old(model.vault))
      ensures var was := old(model);
              var at, x := was.workers[w].at, was.jobs[was.workers[w].id];
              model.workers == was.workers[w := Busy(was.workers[w].id, NextPoint(cfg, x, at, e, was.vault))]
    {
      WorkKeepsChannel(cfg, channel, model, w, e);
      Log(Work(w, e));
    }

    /** Records what others have done to the vault in the meantime. */
    ghost method Elsewhere(op: Vault.Op)
      requires Ran() && store.cfg == cfg.vault && closed == model.closed && Vault.Enabled(model.vault, op)
      requires Linked(All(), model.jobs) && ChannelLinked(channel, model)
      requires store.View() == Vault.Apply(cfg.vault, model.vault, op)
      modifies this`model, this`trace
      ensures Valid() && trace == old(trace) + [AsyncQueue.Elsewhere(op)]
      ensures model == old(model).(vault := store.View())
    {
      Log(AsyncQueue.Elsewhere(op));
    }

    // ---- Input and output, each of which may fail ----

    method UpdateScanJobStatus(id: JobId, row: Row, ok: bool)
      requires Linked(All(), model.jobs) && id in model.jobs
      modifies this`rows
      ensures Linked(All(), model.jobs[id := Update(model.jobs[id], row, ok)])
    {
      assert Stored(All(), id) == Expected(model.jobs, id);
      ghost var x := Update(model.jobs[id], row, ok);
      LinkedRow(All(), model.jobs, id, x.row, x);
      if ok && id in rows {
        rows := rows[id := row];
      }
    }

    method RemoveSpool(id: JobId, ok: bool)
      requires Linked(All(), model.jobs) && id in model.jobs
      modifies this`spool
      ensures Linked(All(), model.jobs[id := Remove(model.jobs[id], ok)])
      ensures ok ==> id !in spool
    {
      assert Stored(All(), id) == Expected(model.jobs, id);
      ghost var x := Remove(model.jobs[id], ok);
      if ok {
        LinkedSpool(All(), model.jobs, id, None, x);
        spool := spool - {id};
      } else {
        LinkedSame(All(), model.jobs, id, x);
      }
    }

    method InsertScanAuditLog(id: JobId, audit: Audit, ok: bool)
      requires Linked(All(), model.jobs) && id in model.jobs
      modifies this`audits
      ensures var x := model.jobs[id];
              Linked(All(), model.jobs[id := if ok then x.(audits := x.audits + [audit]) else x.(auditFault := true)])
    {
      ghost var x := model.jobs[id];
      if ok {
        LinkedAudit(All(), model.jobs, id, audit, x.(audits := x.audits + [audit]));
        audits := audits + [(id, audit)];
      } else {
        LinkedSame(All(), model.jobs, id, x.(auditFault := true));
      }
    }

    method PostWebhook(id: JobId, hook: Hook, response: Response)
      requires Linked(All(), model.jobs) && id in model.jobs
      modifies this`posts
      ensures var x := model.jobs[id];
              Linked(All(), model.jobs[id := if response == Blocked then x else x.(hooks := x.hooks + [hook])])
      ensures posts == if response == Blocked then old(posts) else old(posts) + [(id, hook)]
    {
      ghost var x := model.jobs[id];
      if response == Blocked {
        LinkedSame(All(), model.jobs, id, x);
      } else {
        LinkedPost(All(), model.jobs, id, hook, x.(hooks := x.hooks + [hook]));
        posts := posts + [(id, hook)];
      }
    }

    // ---- The worker ----

    method Attempt(ghost w: nat, job: Ticket, hook: Hook, response: Response, ghost o: Outcome, ghost attempt: nat)
      requires Valid() && Serves(w, job) && model.workers[w].at == Posting(o, attempt) && hook == HookFor(o)
      modifies this`posts, this`model, this`trace
      ensures Valid() && Serves(w, job) && old(trace) <= trace
      ensures Moved(old(model), model, w, job.id, AfterAttempt(o, attempt, response))
      ensures posts == if response == Blocked then old(posts) else old(posts) + [(job.id, hook)]
    {
      PostWebhook(job.id, hook, response);
      Step(w, Post(response));
    }

    /** Up to three attempts; each that leaves the house tells the outcome. */
    method DispatchWebhook(ghost w: nat, job: Ticket, hook: Hook, io: Io)
      requires Valid() && Serves(w, job) && model.workers[w].at.Posting?
      requires model.workers[w].at.attempt == 1 && !model.workers[w].at.o.Unscanned?
      requires hook == HookFor(model.workers[w].at.o)
      modifies this`posts, this`model, this`trace
      ensures Valid() && Serves(w, job) && old(trace) <= trace
      ensures model.workers == old(model.workers)[w := Busy(job.id, Leaving(old(model.workers)[w].at.o))]
      ensures Told(old(posts), posts, job.id, old(model.workers)[w].at.o, io)
      ensures Calm(old(model).jobs[job.id], model.jobs[job.id])
    {
      SentIsTold(posts, job.id, model.workers[w].at.o, io);
      var sent := SendAttempts(w, job, hook, io, model.workers[w].at.o);
    }

    /** The loop. `sent` counts the attempts that leave. */
    method SendAttempts(ghost w: nat, job: Ticket, hook: Hook, io: Io, ghost o: Outcome) returns (sent: nat)
      requires Valid() && Serves(w, job) && model.workers[w].at == Posting(o, 1) && hook == HookFor(o)
      modifies this`posts, this`model, this`trace
      ensures Valid() && Serves(w, job) && old(trace) <= trace
      ensures Moved(old(model), model, w, job.id, Leaving(o))
      ensures sent == Sendings(io, 1) && posts == old(posts) + Repeat((job.id, hook), sent)
    {
      ghost var was := model;
      MovedNot(was, w, job.id, o);
      sent := 0;
      for attempt := 1 to 4
        invariant Valid() && Serves(w, job) && old(trace) <= trace
        invariant Moved(was, model, w, job.id, if attempt <= 3 then Posting(o, attempt) else Leaving(o))
        invariant posts == old(posts) + Repeat((job.id, hook), sent)
        invariant sent + Sendings(io, attempt) == Sendings(io, 1)
      {
        var response := ResponseTo(io, attempt);
        ghost var before := model;
        OneMore(old(posts), (job.id, hook), sent);
        Attempt(w, job, hook, response, o, attempt);
        MovedTwice(was, before, model, w, job.id, Posting(o, attempt), AfterAttempt(o, attempt, response));
        sent := if response == Blocked then sent else sent + 1;
        if response != Retry {
          return;
        }
      }
    }

    method DiscardSpool(ghost w: nat, job: Ticket, ok: bool, ghost r: Report)
      requires Valid() && Serves(w, job) && model.workers[w].at == Discarding(r)
      modifies this`spool, this`model, this`trace
      ensures Valid() && Serves(w, job) && old(trace) <= trace
      ensures model.workers == old(model.workers)[w := Busy(job.id, Completing(r))]
      ensures ok ==> Calm(old(model).jobs[job.id], model.jobs[job.id])
    {
      RemoveSpool(job.id, ok);
      Step(w, Discard(ok));
    }

    method WriteCompletion(ghost w: nat, job: Ticket, row: Row, ok: bool, ghost r: Report)
      requires Valid() && Serves(w, job) && model.workers[w].at == Completing(r) && row == RowFor(Reported(r))
      modifies this`rows, this`model, this`trace
      ensures Valid() && Serves(w, job) && old(trace) <= trace
      ensures model.workers == old(model.workers)[w := Busy(job.id, Auditing(r))]
      ensures ok ==> Calm(old(model).jobs[job.id], model.jobs[job.id])
    {
      UpdateScanJobStatus(job.id, row, ok);
      Step(w, Complete(ok));
    }

    method WriteAudit(ghost w: nat, job: Ticket, audit: Audit, ok: bool, ghost r: Report)
      requires Valid() && Serves(w, job) && model.workers[w].at == Auditing(r)
      requires audit == AuditFor(model.jobs[job.id].job, r)
      modifies this`audits, this`model, this`trace
      ensures Valid() && Serves(w, job) && old(trace) <= trace
      ensures model.workers == old(model.workers)[w := Busy(job.id, Posting(Reported(r), 1))]
      ensures ok ==> Calm(old(model).jobs[job.id], model.jobs[job.id])
    {
      InsertScanAuditLog(job.id, audit, ok);
      Step(w, Record(ok));
    }

    method WriteOutcome(ghost w: nat, job: Ticket, row: Row, audit: Audit, io: Io, ghost r: Report)
      requires Valid() && Serves(w, job) && model.workers[w].at == Completing(r) && row == RowFor(Reported(r))
      requires audit == AuditFor(model.jobs[job.id].job, r)
      modifies this`rows, this`audits, this`model, this`trace
      ensures Valid() && Serves(w, job) && old(trace) <= trace
      ensures model.workers == old(model.workers)[w := Busy(job.id, Posting(Reported(r), 1))]
      ensures io.completes && io.records ==> Calm(old(model).jobs[job.id], model.jobs[job.id])
    {
      WriteCompletion(w, job, row, io.completes, r);
      WriteAudit(w, job, audit, io.records, r);
    }

    /** The row says that the file could not be opened or scanned. */
    method WriteFailure(ghost w: nat, job: Ticket, ok: bool)
      requires Valid() && Serves(w, job) && (model.workers[w].at == OpenFailed || model.workers[w].at == ScanFailed)
      modifies this`rows, this`model, this`trace
      ensures Valid() && Serves(w, job) && old(trace) <= trace
      ensures model.workers == old(model.workers)[w := Busy(job.id,
                if old(model.workers)[w].at == OpenFailed then Posting(Unopened, 1) else Leaving(Unscanned))]
      ensures ok ==> Calm(old(model).jobs[job.id], model.jobs[job.id])
    {
      UpdateScanJobStatus(job.id, Row(Failed, Clamd.Error, "", ""), ok);
      Step(w, Fail(ok));
    }

    /** What follows a verdict, clean or infected. */
    method FinishScan(ghost w: nat, job: Ticket, verdict: Clamd.Verdict, virus: string, sha: string, quarId: string,
                      io: Io, ghost rewound: bool, ghost given: Option<Vault.Incoming>)
      requires Valid() && Serves(w, job)
      requires model.workers[w].at == Discarding(Report(verdict, virus, sha, quarId, rewound, given))
      modifies this`rows, this`spool, this`audits, this`posts, this`model, this`trace
      ensures Valid() && Serves(w, job) && old(trace) <= trace
      ensures model.workers == old(model.workers)[w :=
                Busy(job.id, Leaving(Reported(Report(verdict, virus, sha, quarId, rewound, given))))]
      ensures Told(old(posts), posts, job.id, Reported(Report(verdict, virus, sha, quarId, rewound, given)), io)
      ensures Smooth(io) ==> Calm(old(model).jobs[job.id], model.jobs[job.id])
    {
      ghost var r := Report(verdict, virus, sha, quarId, rewound, given);
      DiscardSpool(w, job, io.discards, r);
      var audit := Audit(job.fileName, job.consumer, sha, verdict, virus, quarId);
      WriteOutcome(w, job, Row(Completed, verdict, virus, sha), audit, io, r);
      var threat := if verdict == Clamd.Infected then Some(Threat(virus, QUARANTINED, quarId)) else None;
      DispatchWebhook(w, job, Hook(Completed, verdict, sha, threat), io);
    }

    /** Rewinds the open file and hands it to the vault. Without the rewinding the vault gets nothing.
        `q` is what the vault made of it, if it could read it. */
    method HandOver(file: Source<Byte>, virus: string, rewinds: bool, d: ScanService.Draw)
      returns (quarId: string, ghost q: Option<Vault.Incoming>)
      requires store.cfg == cfg.vault && ScanService.CanDraw(store.View(), d)
      requires file.Valid() && file.pos == |file.content|
      modifies store, file
      ensures q.Some? ==> q.value == ScanService.IncomingOf(ReadBack(file.content, rewinds), virus, d)
      ensures q.None? ==> quarId == "" && store.View() == old(store.View())
      ensures q.Some? ==>
                var (t, rec) := Vault.Quarantine(cfg.vault, old(store.View()), q.value);
                store.View() == t && quarId == if rec.Some? then d.id else ""
      ensures q.Some? ==> (quarId != "" <==> Vault.Accepts(cfg.vault, q.value))
      ensures store.issued <= old(store.issued) + {d.id}
      ensures old(file.Reliable()) ==> q.Some?
    {
      if rewinds {
        file.pos := 0;
      }
      ghost var given := ScanService.IncomingOf(file.Rest(), virus, d);
      var rec := store.QuarantineFile(file, given, d.id, virus, d.days, d.now, d.modified, d.nonce, d.writes,
                                      d.leftover, d.inserts);
      quarId := if rec.Some? then d.id else "";
      Vault.QuarantineAccepts(cfg.vault, old(store.View()), given);
      q := if (store.View(), rec) == Vault.Quarantine(cfg.vault, old(store.View()), given) then Some(given) else None;
    }

    /** Records what HandOver did. */
    ghost method LogIsolation(w: nat, job: Ticket, rewinds: bool, q: Option<Vault.Incoming>, quarId: string)
      requires Ran() && store.cfg == cfg.vault && closed == model.closed && ChannelLinked(channel, model)
      requires Linked(All(), model.jobs) && Serves(w, job) && model.workers[w].at.Isolating?
      requires q.Some? ==>
                 && Vault.Legal(model.vault, q.value)
                 && q.value.raw == ReadBack(model.workers[w].at.content, rewinds)
                 && q.value.virus == model.workers[w].at.virus
                 && var (t, rec) := Vault.Quarantine(cfg.vault, model.vault, q.value);
                    store.View() == t && quarId == if rec.Some? then q.value.id else ""
      requires q.None? ==> quarId == "" && store.View() == model.vault
      modifies this`model, this`trace
      ensures Valid() && Serves(w, job) && old(trace) <= trace
      ensures var at := old(model.workers)[w].at;
              model.workers == old(model.workers)[w :=
                Busy(job.id, Discarding(Report(Clamd.Infected, at.virus, at.sha, quarId, rewinds, q)))]
      ensures rewinds ==> Calm(old(model).jobs[job.id], model.jobs[job.id])
    {
      var x, p, e := model.jobs[job.id], model.workers[w].at, Isolate(rewinds, q);
      HandOverFits(cfg, x, p, rewinds, q, model.vault, store.View(), quarId);
      LinkedSame(All(), model.jobs, job.id, EffectOnEntry(cfg, x, p, e, model.vault));
      Step(w, e);
    }

    method IsolateFile(ghost w: nat, job: Ticket, file: Source<Byte>, virus: string, rewinds: bool, d: ScanService.Draw)
      returns (quarId: string, ghost q: Option<Vault.Incoming>)
      requires Valid() && Serves(w, job) && ScanService.CanDraw(store.View(), d)
      requires model.workers[w].at.Isolating? && virus == model.workers[w].at.virus
      requires file.Valid() && file.content == model.workers[w].at.content && file.pos == |file.content|
      modifies this`model, this`trace, store, file
      ensures Valid() && Serves(w, job) && old(trace) <= trace
      ensures store.issued <= old(store.issued) + {d.id}
      ensures model.workers == old(model.workers)[w :=
                var sha := old(model.workers)[w].at.sha;
                Busy(job.id, Discarding(Report(Clamd.Infected, virus, sha, quarId, rewinds, q)))]
      ensures q.Some? ==> q.value == ScanService.IncomingOf(ReadBack(file.content, rewinds), virus, d)
      ensures q.None? ==> quarId == ""
      ensures q.Some? ==> (quarId != "" <==> Vault.Accepts(cfg.vault, q.value))
      ensures old(file.Reliable()) ==> q.Some?
      ensures rewinds ==> Calm(old(model).jobs[job.id], model.jobs[job.id])
    {
      quarId, q := HandOver(file, virus, rewinds, d);
      LogIsolation(w, job, rewinds, q, quarId);
    }

    /** Streams the open file to the daemon, through a tee that sees what is read. */
    method StreamFile(ghost w: nat, job: Ticket, file: Source<Byte>, x: ScanService.Exchange)
      returns (seen: Bytes, out: Clamd.Outcome)
      requires Valid() && Serves(w, job)
      requires file.Valid() && file.pos == 0 && file.acts == x.acts && model.workers[w].at == Scanning(file.content)
      modifies this`model, this`trace, file
      ensures Valid() && Serves(w, job) && old(trace) <= trace
      ensures model.workers == old(model.workers)[w := Busy(job.id, AfterScan(cfg, file.content, seen, out))]
      ensures out.error.None? ==> file.Valid() && file.pos == |file.content|
      ensures out.error.None? ==> seen == file.content && out == Clamd.DaemonSays(cfg.daemon, file.content)
      ensures ScanService.Undisturbed(|file.content|, x) ==> out == Clamd.DaemonSays(cfg.daemon, file.content)
      ensures NeverFails(x.acts) ==> file.Reliable()
      ensures Calm(old(model).jobs[job.id], model.jobs[job.id])
    {
      var conn := new Clamd.Conn(cfg.daemon, x.room);
      assert file.Rest() == file.content;
      ghost var frames;
      out, frames := Clamd.ScanStream(conn, file, x.patience, x.replyActs);
      seen := file.content[..file.pos];
      LinkedSame(All(), model.jobs, job.id, model.jobs[job.id]);
      Step(w, Scan(seen, out));
    }

    method FinishInfected(ghost w: nat, job: Ticket, file: Source<Byte>, virus: string, sha: string, io: Io,
                          d: ScanService.Draw)
      requires Valid() && Serves(w, job) && ScanService.CanDraw(store.View(), d)
      requires file.Valid() && file.pos == |file.content|
      requires model.workers[w].at == if cfg.hasVault then Isolating(file.content, virus, sha)
                                      else Discarding(Report(Clamd.Infected, virus, sha, "", true, None))
      modifies this`rows, this`spool, this`audits, this`posts, this`model, this`trace, store, file
      ensures Valid() && Serves(w, job) && old(trace) <= trace
      ensures store.issued <= old(store.issued) + {d.id}
      ensures Reports(w) && model.workers == old(model.workers)[w := model.workers[w]]
      ensures Founded(cfg, model.workers[w].at.o, file.content, io, d, old(file.Reliable()))
      ensures Told(old(posts), posts, job.id, model.workers[w].at.o, io)
      ensures Smooth(io) ==> Calm(old(model).jobs[job.id], model.jobs[job.id])
    {
      var quarId := "";
      ghost var q := None;
      if cfg.hasVault {
        quarId, q := IsolateFile(w, job, file, virus, io.rewinds, d);
      }
      FinishScan(w, job, Clamd.Infected, virus, sha, quarId, io, !cfg.hasVault || io.rewinds, q);
    }

    /** The exchange goes undisturbed, and the daemon has a verdict. */
    ghost predicate Answers(content: Bytes, x: ScanService.Exchange) {
      ScanService.Undisturbed(|content|, x) && Clamd.DaemonSays(cfg.daemon, content).error.None?
    }

    ghost predicate Reports(w: nat) reads this {
      w < |model.workers| && model.workers[w].Busy? && model.workers[w].at.Leaving? && model.workers[w].at.o.Reported?
    }

    method FollowAnswer(ghost w: nat, job: Ticket, file: Source<Byte>, seen: Bytes, out: Clamd.Outcome, io: Io,
                        d: ScanService.Draw)
      requires Valid() && Serves(w, job) && ScanService.CanDraw(store.View(), d)
      requires model.workers[w].at == AfterScan(cfg, file.content, seen, out)
      requires out.error.None? ==> file.Valid() && file.pos == |file.content|
      modifies this`rows, this`spool, this`audits, this`posts, this`model, this`trace, store, file
      ensures Valid() && Serves(w, job) && old(trace) <= trace
      ensures store.issued <= old(store.issued) + {d.id}
      ensures model.workers == old(model.workers)[w := model.workers[w]] && model.workers[w].at.Leaving?
      ensures out.error.None? ==> Reports(w)
      ensures Founded(cfg, model.workers[w].at.o, file.content, io, d, old(file.Reliable()))
      ensures Told(old(posts), posts, job.id, model.workers[w].at.o, io)
      ensures Smooth(io) ==> Calm(old(model).jobs[job.id], model.jobs[job.id])
    {
      if out.error.Some? {
        WriteFailure(w, job, io.fails);
        return;
      }
      var sha := cfg.vault.sha(seen);
      if out.result.verdict == Clamd.Clean {
        FinishScan(w, job, Clamd.Clean, "", sha, "", io, true, None);
      } else {
        FinishInfected(w, job, file, out.result.virusName, sha, io, d);
      }
    }

    /** The open file: its scan, and what follows from the answer. */
    method ScanFile(ghost w: nat, job: Ticket, content: Bytes, io: Io, x: ScanService.Exchange, d: ScanService.Draw)
      requires Valid() && Serves(w, job) && model.workers[w].at == Scanning(content)
      requires ScanService.CanDraw(store.View(), d)
      modifies this`rows, this`spool, this`audits, this`posts, this`model, this`trace, store
      ensures Valid() && Serves(w, job) && old(trace) <= trace
      ensures store.issued <= old(store.issued) + {d.id}
      ensures model.workers == old(model.workers)[w := model.workers[w]] && model.workers[w].at.Leaving?
      ensures Answers(content, x) ==> Reports(w)
      ensures Founded(cfg, model.workers[w].at.o, content, io, d, NeverFails(x.acts))
      ensures Told(old(posts), posts, job.id, model.workers[w].at.o, io)
      ensures Smooth(io) ==> Calm(old(model).jobs[job.id], model.jobs[job.id])
    {
      var file := new Source<Byte>(content, x.acts);
      var seen, out := StreamFile(w, job, file, x);
      FollowAnswer(w, job, file, seen, out, io, d);
    }

    /** The spool file cannot be opened. */
    method ReportUnopened(ghost w: nat, job: Ticket, io: Io)
      requires Valid() && Serves(w, job) && model.workers[w].at == OpenFailed
      modifies this`rows, this`posts, this`model, this`trace
      ensures Valid() && Serves(w, job) && old(trace) <= trace
      ensures model.workers == old(model.workers)[w := Busy(job.id, Leaving(Unopened))]
      ensures Told(old(posts), posts, job.id, Unopened, io)
      ensures io.fails ==> Calm(old(model).jobs[job.id], model.jobs[job.id])
    {
      WriteFailure(w, job, io.fails);
      DispatchWebhook(w, job, Hook(Failed, Clamd.Error, "", None), io);
    }

    method MarkProcessing(ghost w: nat, job: Ticket, ok: bool)
      requires Valid() && Serves(w, job) && model.workers[w].at == Received
      modifies this`rows, this`model, this`trace
      ensures Valid() && Serves(w, job) && old(trace) <= trace
      ensures model.workers == old(model.workers)[w := Busy(job.id, Marked)]
      ensures ok ==> Calm(old(model).jobs[job.id], model.jobs[job.id])
    {
      UpdateScanJobStatus(job.id, PROCESSING, ok);
      Step(w, Mark(ok));
    }

    method OpenSpool(ghost w: nat, job: Ticket, opens: bool) returns (content: Option<Bytes>)
      requires Valid() && Serves(w, job) && model.workers[w].at == Marked
      modifies this`model, this`trace
      ensures Valid() && Serves(w, job) && old(trace) <= trace
      ensures content == if opens && job.id in spool then Some(spool[job.id]) else None
      ensures model.workers == old(model.workers)[w :=
                Busy(job.id, if content.Some? then Scanning(content.value) else OpenFailed)]
      ensures opens ==> Calm(old(model).jobs[job.id], model.jobs[job.id])
    {
      content := if opens && job.id in spool then Some(spool[job.id]) else None;
      assert Stored(All(), job.id) == Expected(model.jobs, job.id);
      ghost var e := Open(opens);
      LinkedSame(All(), model.jobs, job.id, EffectOnEntry(cfg, model.jobs[job.id], Marked, e, model.vault));
      Step(w, e);
    }

    /** The deferred removal. */
    method LeaveJob(ghost w: nat, job: Ticket, ok: bool)
      requires Valid() && Serves(w, job) && model.workers[w].at.Leaving?
      modifies this`spool, this`model, this`trace
      ensures Valid() && old(trace) <= trace
      ensures model.workers == old(model.workers)[w := Waiting]
      ensures IsAt(model, job.id, Done(old(model.workers)[w].at.o))
      ensures ok ==> Calm(old(model).jobs[job.id], model.jobs[job.id])
    {
      ghost var o := model.workers[w].at.o;
      RemoveSpool(job.id, ok);
      ghost var x := Remove(model.jobs[job.id], ok);
      LinkedAgain(All(), model.jobs, job.id, x, x.(at := Done(o)));
      Log(Leave(w, ok));
    }

    method HandleFile(ghost w: nat, job: Ticket, content: Option<Bytes>, t: Turn)
      requires Valid() && Serves(w, job) && ScanService.CanDraw(store.View(), t.d)
      requires model.workers[w].at == if content.Some? then Scanning(content.value) else OpenFailed
      modifies this`rows, this`spool, this`audits, this`posts, this`model, this`trace, store
      ensures Valid() && Serves(w, job) && old(trace) <= trace
      ensures store.issued <= old(store.issued) + {t.d.id}
      ensures model.workers == old(model.workers)[w := model.workers[w]] && model.workers[w].at.Leaving?
      ensures content.Some? && Answers(content.value, t.x) ==> Reports(w)
      ensures content.None? ==> model.workers[w].at.o == Unopened
      ensures content.Some? ==>
                Founded(cfg, model.workers[w].at.o, content.value, t.io, t.d, NeverFails(t.x.acts))
      ensures Told(old(posts), posts, job.id, model.workers[w].at.o, t.io)
      ensures Smooth(t.io) ==> Calm(old(model).jobs[job.id], model.jobs[job.id])
    {
      if content.None? {
        ReportUnopened(w, job, t.io);
      } else {
        ScanFile(w, job, content.value, t.io, t.x, t.d);
      }
    }

    /** From the receipt of a job to the deferred removal of its spool file. When nothing disturbs the
        exchange with the daemon and the daemon has a verdict, an opened file is reported; an infected one
        is isolated exactly if there is a vault that accepts what is read back; when all calls work, no
        fault is added; and unless the scan failed, the webhook leaves as often as its receiver's answers
        make it. */
    method ProcessJob(ghost w: nat, job: Ticket, t: Turn)
      requires Valid() && Serves(w, job) && model.workers[w].at == Received
      requires ScanService.CanDraw(store.View(), t.d)
      modifies this`rows, this`spool, this`audits, this`posts, this`model, this`trace, store
      ensures Valid() && old(trace) <= trace
      ensures store.issued <= old(store.issued) + {t.d.id}
      ensures model.workers == old(model.workers)[w := Waiting]
      ensures job.id in model.jobs && model.jobs[job.id].at.Done?
      ensures t.io.opens && job.id in old(spool) && Answers(old(spool)[job.id], t.x) ==>
                model.jobs[job.id].at.o.Reported?
      ensures job.id in old(spool) ==>
                Founded(cfg, model.jobs[job.id].at.o, old(spool)[job.id], t.io, t.d, NeverFails(t.x.acts))
      ensures Told(old(posts), posts, job.id, model.jobs[job.id].at.o, t.io)
      ensures Smooth(t.io) ==> Calm(old(model).jobs[job.id], model.jobs[job.id])
    {
      MarkProcessing(w, job, t.io.marks);
      var content := OpenSpool(w, job, t.io.opens);
      HandleFile(w, job, content, t);
      LeaveJob(w, job, t.io.leaves);
    }

    /** One turn of the loop over the channel: a job, or the end of a closed and empty channel. */
    method Receive(ghost w: nat) returns (job: Option<Ticket>)
      requires Valid() && w < |model.workers| && model.workers[w].Waiting? && (channel != [] || closed)
      modifies this`channel, this`model, this`trace
      ensures Valid() && old(trace) <= trace
      ensures job == if old(channel) == [] then None else Some(old(channel)[0])
      ensures channel == if old(channel) == [] then [] else old(channel)[1..]
      ensures job.Some? ==> Serves(w, job.value)
      ensures job.Some? ==> model.workers == old(model.workers)[w := Busy(job.value.id, Received)]
      ensures job.None? ==> model.workers == old(model.workers)[w := Stopped]
    {
      if channel == [] {
        Log(AsyncQueue.Receive(w));
        return None;
      }
      job := Some(channel[0]);
      ghost var x := model.jobs[channel[0].id];
      LinkedSame(All(), model.jobs, channel[0].id, x.(at := HeldBy(w)));
      channel := channel[1..];
      Log(AsyncQueue.Receive(w));
    }

    /** The vault IDs that will be drawn are new and distinct. */
    ghost predicate Prepared(turns: seq<Turn>) reads store {
      && (forall i :: 0 <= i < |turns| ==> ScanService.CanDraw(store.View(), turns[i].d))
      && (forall i, j :: 0 <= i < j < |turns| ==> turns[i].d.id != turns[j].d.id)
    }

    method TakeTurn(ghost w: nat, turns: seq<Turn>) returns (rest: seq<Turn>)
      requires Valid() && channel != [] && w < |model.workers| && model.workers[w].Waiting?
      requires Prepared(turns) && |turns| >= |channel|
      modifies this`rows, this`spool, this`audits, this`posts, this`channel, this`model, this`trace, store
      ensures Valid() && old(trace) <= trace && channel == old(channel)[1..]
      ensures rest == turns[1..] && Prepared(rest)
      ensures model.workers == old(model.workers)
    {
      var job := Receive(w);
      ProcessJob(w, job.value, turns[0]);
      rest := turns[1..];
      assert old(model.workers)[w] == Waiting;
    }

    /** The loop of a worker after close: it takes every job that is left and stops. */
    method Worker(ghost w: nat, turns: seq<Turn>) returns (rest: seq<Turn>)
      requires Valid() && closed && w < |model.workers| && model.workers[w].Waiting?
      requires Prepared(turns) && |turns| >= |channel|
      modifies this`rows, this`spool, this`audits, this`posts, this`channel, this`model, this`trace, store
      ensures Valid() && old(trace) <= trace && channel == [] && Prepared(rest)
      ensures model.workers == old(model.workers)[w := Stopped]
    {
      rest := turns;
      while channel != []
        invariant Valid() && closed && old(trace) <= trace && |rest| >= |channel| && Prepared(rest)
        invariant model.workers == old(model.workers) && model.workers[w].Waiting?
        decreases |channel|
      {
        rest := TakeTurn(w, rest);
      }
      var none := Receive(w);
    }

    method Close()
      requires Valid() && !closed
      modifies this`closed, this`model, this`trace
      ensures Valid() && closed && model == old(model).(closed := true) && trace == old(trace) + [AsyncQueue.Close]
    {
      closed := true;
      Log(AsyncQueue.Close);
    }

    // ---- The submitter ----

    method CopyChunk(id: JobId, data: Bytes)
      requires Valid() && IsAt(model, id, Copying) && id in spool && spool[id] + data <= model.jobs[id].job.payload
      modifies this`spool, this`model, this`trace
      ensures Valid() && old(trace) <= trace && OnlyJob(old(model), model, id) && IsAt(model, id, Copying)
      ensures id in spool && spool[id] == old(spool)[id] + data
    {
      assert Stored(All(), id) == Expected(model.jobs, id);
      ghost var x := model.jobs[id];
      LinkedSpool(All(), model.jobs, id, Some(spool[id] + data), x.(spool := Some(spool[id] + data)));
      spool := spool[id := spool[id] + data];
      Log(Copy(id, data));
    }

    method FinishCopy(id: JobId, ok: bool, removes: bool)
      requires Valid() && IsAt(model, id, Copying) && id in spool
      requires ok ==> spool[id] == model.jobs[id].job.payload
      modifies this`spool, this`model, this`trace
      ensures Valid() && old(trace) <= trace && OnlyJob(old(model), model, id)
      ensures IsAt(model, id, if ok then Copied else Aborted)
      ensures ok ==> spool == old(spool)
      ensures !ok && removes ==> id !in spool
    {
      assert Stored(All(), id) == Expected(model.jobs, id);
      ghost var x := model.jobs[id];
      if ok {
        LinkedSame(All(), model.jobs, id, x.(at := Copied));
        Log(EndCopy(id, true, true));
      } else {
        AbortSpool(id, removes);
      }
    }

    method AbortSpool(id: JobId, removes: bool)
      requires Valid() && IsAt(model, id, Copying)
      modifies this`spool, this`model, this`trace
      ensures Valid() && old(trace) <= trace && OnlyJob(old(model), model, id) && IsAt(model, id, Aborted)
      ensures removes ==> id !in spool
    {
      RemoveSpool(id, removes);
      ghost var x := Remove(model.jobs[id], removes);
      LinkedAgain(All(), model.jobs, id, x, x.(at := Aborted));
      Log(EndCopy(id, false, removes));
    }

    /** One round of io.Copy: what was read is written. */
    method CopyRound(id: JobId, r: Source<Byte>, ghost payload: Bytes) returns (err: ReadError)
      requires Valid() && IsAt(model, id, Copying) && id in spool
      requires r.Valid() && spool[id] + r.Rest() == payload == model.jobs[id].job.payload
      modifies this`spool, this`model, this`trace, r
      ensures Valid() && old(trace) <= trace && OnlyJob(old(model), model, id) && IsAt(model, id, Copying)
      ensures id in spool && r.Valid() && spool[id] + r.Rest() == payload
      ensures err == Eof ==> spool[id] == payload
      ensures err == NoError ==> r.Effort() < old(r.Effort())
      ensures old(r.Reliable()) ==> r.Reliable() && err != Failure
    {
      var size: nat :| size > 0;
      ghost var rest := r.Rest();
      var data;
      data, err := r.Read(size);
      assert rest == data + r.Rest();
      assert spool[id] + (data + r.Rest()) == (spool[id] + data) + r.Rest();
      CopyChunk(id, data);
    }

    /** io.Copy: the upload goes to the spool in whatever pieces it arrives. */
    method CopyUpload(id: JobId, r: Source<Byte>, removes: bool) returns (ok: bool)
      requires Valid() && r.Valid() && IsAt(model, id, Copying)
      requires model.jobs[id].job.payload == r.Rest() && id in spool && spool[id] == []
      modifies this`spool, this`model, this`trace, r
      ensures Valid() && old(trace) <= trace && OnlyJob(old(model), model, id)
      ensures IsAt(model, id, if ok then Copied else Aborted)
      ensures ok ==> id in spool && spool[id] == old(r.Rest())
      ensures !ok && removes ==> id !in spool
      ensures old(r.Reliable()) ==> ok
    {
      ghost var payload, was := r.Rest(), model;
      var err := NoError;
      while err == NoError
        invariant Valid() && old(trace) <= trace && OnlyJob(was, model, id) && IsAt(model, id, Copying)
        invariant r.Valid() && id in spool && spool[id] + r.Rest() == payload
        invariant err == Eof ==> spool[id] == payload
        invariant old(r.Reliable()) ==> r.Reliable() && err != Failure
        decreases err == NoError, r.Effort()
      {
        ghost var before := model;
        err := CopyRound(id, r, payload);
        OnlyJobTwice(was, before, model, id);
      }
      ok := err == Eof;
      ghost var copied := model;
      FinishCopy(id, ok, removes);
      OnlyJobTwice(was, copied, model, id);
    }

    method BeginSpool(job: Ticket, ghost payload: Bytes)
      requires Valid() && job.id !in model.jobs
      modifies this`spool, this`model, this`trace
      ensures Valid() && old(trace) <= trace && OnlyJob(old(model), model, job.id) && IsAt(model, job.id, Copying)
      ensures model.jobs[job.id].job == Job(job.fileName, job.consumer, payload)
      ensures job.id in spool && spool[job.id] == []
    {
      ghost var meta := Job(job.fileName, job.consumer, payload);
      LinkedSpool(All(), model.jobs, job.id, Some([]),
                  Entry(meta, Copying, None, Some([]), [], [], {}, false, false, false));
      spool := spool[job.id := []];
      Log(Begin(job.id, meta));
    }

    method InsertScanJob(id: JobId, inserts: bool, removes: bool)
      requires Valid() && IsAt(model, id, Copied)
      modifies this`rows, this`spool, this`model, this`trace
      ensures Valid() && old(trace) <= trace && OnlyJob(old(model), model, id)
      ensures IsAt(model, id, if inserts then Inserted else Aborted)
      ensures inserts ==> id in rows && rows[id] == QUEUED && spool == old(spool)
      ensures !inserts && removes ==> id !in spool
    {
      if inserts {
        ghost var x := model.jobs[id];
        LinkedRow(All(), model.jobs, id, Some(QUEUED), x.(at := Inserted, row := Some(QUEUED)));
        rows := rows[id := QUEUED];
        Log(Insert(id, true, true));
      } else {
        AbortInsert(id, removes);
      }
    }

    method AbortInsert(id: JobId, removes: bool)
      requires Valid() && IsAt(model, id, Copied)
      modifies this`spool, this`model, this`trace
      ensures Valid() && old(trace) <= trace && OnlyJob(old(model), model, id) && IsAt(model, id, Aborted)
      ensures removes ==> id !in spool
    {
      RemoveSpool(id, removes);
      ghost var x := Remove(model.jobs[id], removes);
      LinkedAgain(All(), model.jobs, id, x, x.(at := Aborted, rowFault := true));
      Log(Insert(id, false, removes));
    }

    /** The send that does not wait: a closed channel panics, a full one drops the job. */
    method TrySend(job: Ticket) returns (ok: bool)
      requires Valid() && IsAt(model, job.id, Inserted) && job == TicketOf(job.id, model.jobs[job.id].job)
      modifies this`channel, this`model, this`trace
      ensures Valid() && old(trace) <= trace && ok == !closed
      ensures channel == if ok && |old(channel)| < cfg.capacity then old(channel) + [job] else old(channel)
      ensures IsAt(model, job.id, if !ok then Panicked
                                  else if |old(channel)| < cfg.capacity then InChannel else Dropped)
      ensures model.jobs == old(model.jobs)[job.id := model.jobs[job.id]]
      ensures model.jobs[job.id].job == old(model.jobs)[job.id].job
      ensures model.workers == old(model.workers) && model.vault == old(model.vault)
    {
      ok := !closed;
      ghost var x := model.jobs[job.id];
      ghost var at := if closed then Panicked else if |channel| < cfg.capacity then InChannel else Dropped;
      LinkedSame(All(), model.jobs, job.id, x.(at := at));
      if ok && |channel| < cfg.capacity {
        channel := channel + [job];
      }
      Log(Send(job.id));
    }

    method SpoolUpload(job: Ticket, r: Source<Byte>, removes: bool) returns (ok: bool)
      requires Valid() && job.id !in model.jobs && r.Valid()
      modifies this`spool, this`model, this`trace, r
      ensures Valid() && old(trace) <= trace && OnlyJob(old(model), model, job.id)
      ensures model.jobs[job.id].job == Job(job.fileName, job.consumer, old(r.Rest()))
      ensures model.jobs[job.id].at == if ok then Copied else Aborted
      ensures ok ==> job.id in spool && spool[job.id] == old(r.Rest())
      ensures !ok && removes ==> job.id !in spool
      ensures old(r.Reliable()) ==> ok
    {
      ghost var was := model;
      BeginSpool(job, r.content[r.pos..]);
      ghost var begun := model;
      ok := CopyUpload(job.id, r, removes);
      OnlyJobTwice(was, begun, model, job.id);
    }

    /** The spool file, then the row, then the channel. The caller learns of an aborted submission;
        it is not told that a full channel has dropped the job. `inserts` is the answer of the database,
        `removes` whether the spool file of an aborted submission can be removed. */
    method SubmitJob(id: JobId, fileName: string, consumer: string, r: Source<Byte>, inserts: bool, removes: bool)
      returns (ok: bool)
      requires Valid() && id !in model.jobs && r.Valid()
      modifies this`rows, this`spool, this`channel, this`model, this`trace, r
      ensures Valid() && old(trace) <= trace
      ensures id in model.jobs && model.jobs[id].job == Job(fileName, consumer, old(r.Rest()))
      ensures model.jobs == old(model.jobs)[id := model.jobs[id]] && model.workers == old(model.workers)
      ensures ok ==> inserts && !closed
      ensures old(r.Reliable()) && inserts && !closed ==> ok
      ensures ok ==> id in rows && rows[id] == QUEUED && id in spool && spool[id] == old(r.Rest())
      ensures ok ==> model.jobs[id].at == if |old(channel)| < cfg.capacity then InChannel else Dropped
      ensures !ok ==> model.jobs[id].at == Aborted || (closed && model.jobs[id].at == Panicked)
      ensures model.jobs[id].at == Aborted && removes ==> id !in spool
      ensures channel == if ok && |old(channel)| < cfg.capacity then old(channel) + [Ticket(id, fileName, consumer)]
                         else old(channel)
    {
      var job := Ticket(id, fileName, consumer);
      ok := SpoolUpload(job, r, removes);
      if ok {
        ok := Enqueue(job, inserts, removes);
      }
    }

    method Enqueue(job: Ticket, inserts: bool, removes: bool) returns (ok: bool)
      requires Valid() && IsAt(model, job.id, Copied) && job == TicketOf(job.id, model.jobs[job.id].job)
      modifies this`rows, this`spool, this`channel, this`model, this`trace
      ensures Valid() && old(trace) <= trace && ok == (inserts && !closed)
      ensures ok ==> job.id in rows && rows[job.id] == QUEUED && spool == old(spool)
      ensures !inserts && removes ==> job.id !in spool
      ensures IsAt(model, job.id, if !inserts then Aborted else if closed then Panicked
                                  else if |old(channel)| < cfg.capacity then InChannel else Dropped)
      ensures channel == if ok && |old(channel)| < cfg.capacity then old(channel) + [job] else old(channel)
      ensures model.jobs == old(model.jobs)[job.id := model.jobs[job.id]] && model.workers == old(model.workers)
      ensures model.jobs[job.id].job == old(model.jobs)[job.id].job
    {
      InsertScanJob(job.id, inserts, removes);
      ok := false;
      if inserts {
        ok := TrySend(job);
      }
    }
  }

  // ---- The others at the vault ----

  /** The hourly purge. */
  method PurgeBeside(q: Queue, now: int, stuck: set<string>) returns (purged: nat)
    requires q.Valid()
    modifies q.store, q`model, q`trace
    ensures q.Valid() && old(q.trace) <= q.trace
    ensures q.store.View() == Vault.PurgeExpired(old(q.store.View()), now, stuck)
  {
    purged := q.store.Purge(now, stuck);
    q.Elsewhere(Vault.Purge(now, stuck));
  }

  method DeleteBeside(q: Queue, id: string, removes: bool, deletes: bool) returns (ok: bool)
    requires q.Valid()
    modifies q.store, q`model, q`trace
    ensures q.Valid() && old(q.trace) <= q.trace
    ensures q.store.View() == Vault.DeleteFile(old(q.store.View()), id, removes, deletes)
  {
    ok := q.store.Delete(id, removes, deletes);
    q.Elsewhere(Vault.Delete(id, removes, deletes));
  }

  method RestoreBeside(q: Queue, id: string, list: bool, db: Vault.DbAnswers)
    returns (res: Result<Bytes, Vault.VaultError>)
    requires q.Valid()
    modifies q.store, q`model, q`trace
    ensures q.Valid() && old(q.trace) <= q.trace
    ensures (q.store.View(), res) == Vault.RestoreFile(q.cfg.vault, old(q.store.View()), id, list, db)
  {
    res := q.store.Restore(id, list, db);
    q.Elsewhere(Vault.Restore(id, list, db));
  }

  /** A scan over HTTP or gRPC on the same vault. */
  method ScanBeside(q: Queue, s: ScanService.Service, payload: Bytes, fileName: string, consumer: string,
                    looksUp: bool, audited: bool, d: ScanService.Draw, x: ScanService.Exchange)
    returns (j: ScanService.Judgement)
    requires q.Valid() && s.store == q.store && ScanService.CanDraw(q.store.View(), d)
    modifies s, q.store, q`model, q`trace
    ensures q.Valid() && old(q.trace) <= q.trace
  {
    ghost var was := q.store.View();
    ghost var heard;
    j, heard := s.Judge(payload, fileName, consumer, looksUp, audited, d, x);
    ScanService.AnswerIsAScan(q.cfg.vault, s.daemon, was, payload, looksUp, heard, d);
    var virus := if j.Judged? then j.virus else "";
    q.Elsewhere(Vault.Scan(j.Judged? && j.verdict == Clamd.Infected, looksUp,
                           ScanService.IncomingOf(payload, virus, d)));
  }

  /** What the code reaches, the protocol reaches. */
  lemma CodeIsReachable(q: Queue, workers: nat, vault: Vault.State)
    requires q.Valid() && q.origin == Start(workers, vault) && Vault.Accounted(vault)
    ensures QueueTheorems.Reachable(q.cfg, q.model)
  {
    assert QueueTheorems.Reaches(q.cfg, workers, vault, q.trace, q.model);
  }

  /** A job the code is done with is told by its own tables: by its row, unless a write of it failed; by
      its one audit row if it was scanned, and none otherwise, unless the write of that failed; unless a
      file operation failed, its spool file is gone; and every webhook that was sent tells the outcome.
      An infected one has an ID exactly if the vault accepted what it was given. */
  lemma DoneIsTold(q: Queue, workers: nat, vault: Vault.State, id: JobId)
    requires q.Valid() && q.origin == Start(workers, vault) && Vault.Accounted(vault)
    requires id in q.model.jobs && q.model.jobs[id].at.Done?
    ensures var x, o := q.model.jobs[id], q.model.jobs[id].at.o;
            && (!x.rowFault ==> id in q.rows && q.rows[id] == RowFor(o))
            && (!x.rowFault ==> q.rows[id].status == if o.Reported? then Completed else Failed)
            && (!x.rowFault && !o.Reported? ==> q.rows[id].verdict == Clamd.Error)
            && (!x.auditFault ==> Of(q.audits, id) == if o.Reported? then [AuditFor(x.job, o.report)] else [])
            && (!x.diskFault ==> id !in q.spool && !o.Unopened?)
            && |Of(q.posts, id)| <= 3
            && (forall i :: 0 <= i < |Of(q.posts, id)| ==> Of(q.posts, id)[i] == HookFor(o))
            && (o.Reported? ==>
                  && QueueInvariant.Observed(q.cfg, x.job.payload, o.report.verdict, o.report.virus, o.report.sha)
                  && (o.report.quarantineId != "" <==>
                        QueueInvariant.VaultAccepts(q.cfg, x.job.payload, o.report)))
  {
    CodeIsReachable(q, workers, vault);
    QueueTheorems.ReachableInv(q.cfg, q.model);
    assert QueueInvariant.JobOk(q.cfg, q.model, q.model.jobs[id]);
    assert Stored(q.All(), id) == Expected(q.model.jobs, id);
  }

  /** So the tables of the code tell the truth: a COMPLETED row is about a job that was submitted, and has
      the digest of its whole upload and the verdict and name that the daemon gives for it; and every
      webhook that was sent about the job says the same, unless a write of the row failed. */
  lemma TablesAreTrue(q: Queue, workers: nat, vault: Vault.State, id: JobId)
    requires q.Valid() && q.origin == Start(workers, vault) && Vault.Accounted(vault)
    requires id in q.rows && q.rows[id].status == Completed
    ensures id in q.model.jobs
    ensures var row, x := q.rows[id], q.model.jobs[id];
            && QueueInvariant.Observed(q.cfg, x.job.payload, row.verdict, row.virus, row.sha)
            && (x.at.Done? && !x.auditFault ==> |Of(q.audits, id)| == 1 && Of(q.audits, id)[0].sha == row.sha)
            && (x.at.Done? && !x.diskFault ==> id !in q.spool)
            && forall i :: 0 <= i < |Of(q.posts, id)| && !x.rowFault ==>
                 Of(q.posts, id)[i].verdict == row.verdict && Of(q.posts, id)[i].sha == row.sha
  {
    CodeIsReachable(q, workers, vault);
    assert Stored(q.All(), id) == Expected(q.model.jobs, id);
    QueueTheorems.CompletedIsTrue(q.cfg, q.model, id);
    QueueTheorems.SpoolFollowsJob(q.cfg, q.model, id);
    forall i | 0 <= i < |q.model.jobs[id].hooks| && !q.model.jobs[id].rowFault
      ensures q.model.jobs[id].hooks[i].verdict == q.rows[id].verdict
              && q.model.jobs[id].hooks[i].sha == q.rows[id].sha
    {
      QueueTheorems.WebhooksMatchRow(q.cfg, q.model, id, i);
    }
  }
}
