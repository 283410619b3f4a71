/** internal/asyncscan/queue.go as a protocol: submitters and workers that share a bounded channel,
    the scan_jobs and audit tables, the spool directory and the vault. One event is one effect, and
    a run is any interleaving of enabled events. */
module AsyncQueue {
  import opened Basics
  import Clamd
  import Vault

  type JobId = nat

  /** The metadata of a submission, and what its upload will deliver when it does not fail. */
  datatype Job = Job(fileName: string, consumer: string, payload: Bytes)

  /** `daemon` is what the antivirus daemon answers to a stream. */
  datatype Config = Config(capacity: nat, hasVault: bool, vault: Vault.Config, daemon: Bytes -> string)

  // ---- Tables and messages ----

  datatype Status = Queued | Processing | Completed | Failed

  datatype Row = Row(status: Status, verdict: Clamd.Verdict, virus: string, sha: string)

  datatype Audit = Audit(fileName: string, consumer: string, sha: string, verdict: Clamd.Verdict, virus: string,
                         quarantineId: string)

  /** The part of a webhook about an infection, with the action it claims. */
  datatype Threat = Threat(virus: string, action: string, quarantineId: string)

  datatype Hook = Hook(status: Status, verdict: Clamd.Verdict, sha: string, threat: Option<Threat>)

  /** What a worker found out about a scanned file. The rest is history: whether the file was rewound
      before it was given to the vault, and what the vault was given, if anything. */
  datatype Report = Report(verdict: Clamd.Verdict, virus: string, sha: string, quarantineId: string,
                           rewound: bool, given: Option<Vault.Incoming>)

  /** How the processing of a job ended. */
  datatype Outcome = Unopened | Unscanned | Reported(report: Report)

  const QUEUED := Row(Queued, Clamd.NoVerdict, "", "")
  const PROCESSING := Row(Processing, Clamd.NoVerdict, "", "")
  const QUARANTINED := "QUARANTINED"

  function RowFor(o: Outcome): Row {
    if o.Reported? then Row(Completed, o.report.verdict, o.report.virus, o.report.sha)
    else Row(Failed, Clamd.Error, "", "")
  }

  function AuditFor(job: Job, r: Report): Audit {
    Audit(job.fileName, job.consumer, r.sha, r.verdict, r.virus, r.quarantineId)
  }

  function HookFor(o: Outcome): Hook {
    if o.Reported? then Hook(Completed, o.report.verdict, o.report.sha, ThreatIn(o.report))
    else Hook(Failed, Clamd.Error, "", None)
  }

  /** The action is claimed of every infected file, whatever became of its isolation. */
  function ThreatIn(r: Report): Option<Threat> {
    if r.verdict == Clamd.Infected then Some(Threat(r.virus, QUARANTINED, r.quarantineId)) else None
  }

  // ---- Control ----

  /** How far a job has come. Up to the send this is the control point of its SubmitJob call; from
      there on it is history, tied to the channel and the workers by an invariant. */
  datatype Place = Copying | Copied | Inserted | Aborted | Dropped | Panicked
                 | InChannel | HeldBy(w: nat) | Done(o: Outcome)

  /** Everything that exists about a job: its place, its row in scan_jobs, its spool file, its audit
      rows and the webhooks sent for it. The rest is history: the vault records that its isolation has
      added, and whether a write of its row, the write of its audit row, or a file operation on its
      behalf has failed so far. */
  datatype Entry = Entry(job: Job, at: Place, row: Option<Row>, spool: Option<Bytes>, audits: seq<Audit>,
                         hooks: seq<Hook>, isolated: set<string>, rowFault: bool, auditFault: bool, diskFault: bool)

  /** Where processJob is: what the worker does next. */
  datatype Point =
    | Received                                    // UPDATE PROCESSING
    | Marked                                      // open the spool file
    | OpenFailed                                  // UPDATE FAILED
    | Scanning(content: Bytes)                    // stream the open file to the daemon
    | ScanFailed                                  // UPDATE FAILED
    | Isolating(content: Bytes, virus: string, sha: string)    // rewind and quarantine
    | Discarding(r: Report)                       // close and remove the spool file
    | Completing(r: Report)                       // UPDATE COMPLETED
    | Auditing(r: Report)                         // INSERT the audit row
    | Posting(o: Outcome, attempt: nat)           // POST the webhook
    | Leaving(o: Outcome)                         // the deferred removal

  datatype Worker = Waiting | Stopped | Busy(id: JobId, at: Point)

  datatype State = State(jobs: map<JobId, Entry>, channel: seq<JobId>, closed: bool, workers: seq<Worker>,
                         vault: Vault.State)

  // ---- Events ----

  /** What became of one POST: a 2xx answer, nothing sent at all, or anything worth another try. */
  datatype Response = Accepted | Blocked | Retry

  /** One effect of processJob; the flags say whether it succeeds. */
  datatype Effect =
    | Mark(ok: bool)
    | Open(ok: bool)
    | Scan(seen: Bytes, out: Clamd.Outcome)                 // `seen` went through the tee
    | Isolate(rewinds: bool, q: Option<Vault.Incoming>)     // None: the payload cannot be read back
    | Fail(ok: bool)
    | Discard(ok: bool)
    | Complete(ok: bool)
    | Record(ok: bool)
    | Post(response: Response)

  datatype Event =
    | Begin(id: JobId, job: Job)
    | Copy(id: JobId, chunk: Bytes)
    | EndCopy(id: JobId, ok: bool, removes: bool)
    | Insert(id: JobId, ok: bool, removes: bool)
    | Send(id: JobId)
    | Close
    | Receive(w: nat)
    | Work(w: nat, effect: Effect)
    | Leave(w: nat, ok: bool)
    | Elsewhere(op: Vault.Op)    // what all others do to the same vault: scans, restorations, deletions, purges

  // ---- The effects of processJob ----

  /** The bytes the vault reads from an open file that was scanned to its end. */
  function ReadBack(content: Bytes, rewinds: bool): Bytes {
    if rewinds then content else []
  }

  /** What is known of a scan without error is what Clamd.ScanStream promises: it has read the file to
      its end, and its outcome is what the daemon says of the file. */
  predicate Fits(c: Config, p: Point, e: Effect, vault: Vault.State) {
    match e
    case Mark(_) => p.Received?
    case Open(_) => p.Marked?
    case Scan(seen, out) =>
      p.Scanning? && (out.error.None? ==> seen == p.content && out == Clamd.DaemonSays(c.daemon, p.content))
    case Isolate(rewinds, q) =>
      && p.Isolating?
      && (q.Some? ==>
            && Vault.Legal(vault, q.value)
            && q.value.raw == ReadBack(p.content, rewinds) && q.value.virus == p.virus)
    case Fail(_) => p.OpenFailed? || p.ScanFailed?
    case Discard(_) => p.Discarding?
    case Complete(_) => p.Completing?
    case Record(_) => p.Auditing?
    case Post(_) => p.Posting?
  }

  /** UPDATE scan_jobs: no row, no change. */
  function Update(x: Entry, row: Row, ok: bool): Entry {
    if !ok then x.(rowFault := true) else if x.row.Some? then x.(row := Some(row)) else x
  }

  /** os.Remove: no file, no fault. */
  function Remove(x: Entry, ok: bool): Entry {
    if x.spool == None then x else if ok then x.(spool := None) else x.(diskFault := true)
  }

  /** The digest is that of the bytes seen by the tee; what is not clean counts as infected. */
  function AfterScan(c: Config, content: Bytes, seen: Bytes, out: Clamd.Outcome): Point {
    var sha := c.vault.sha(seen);
    if out.error.Some? then ScanFailed
    else if out.result.verdict == Clamd.Clean then Discarding(Report(Clamd.Clean, "", sha, "", true, None))
    else if c.hasVault then Isolating(content, out.result.virusName, sha)
    else Discarding(Report(Clamd.Infected, out.result.virusName, sha, "", true, None))
  }

  function EffectOnVault(c: Config, p: Point, e: Effect, vault: Vault.State): Vault.State
    requires Fits(c, p, e, vault)
  {
    if e.Isolate? && e.q.Some? then Vault.Quarantine(c.vault, vault, e.q.value).0 else vault
  }

  function EffectOnEntry(c: Config, x: Entry, p: Point, e: Effect, vault: Vault.State): Entry
    requires Fits(c, p, e, vault)
  {
    match e
    case Mark(ok) => Update(x, PROCESSING, ok)
    case Open(ok) => if ok then x else x.(diskFault := true)
    case Scan(_, _) => x
    case Isolate(rewinds, _) =>
      x.(isolated := x.isolated + (EffectOnVault(c, p, e, vault).records.Keys - vault.records.Keys),
         diskFault := x.diskFault || !rewinds)
    case Fail(ok) => Update(x, RowFor(Unopened), ok)
    case Discard(ok) => Remove(x, ok)
    case Complete(ok) => Update(x, RowFor(Reported(p.r)), ok)
    case Record(ok) =>
      if ok then x.(audits := x.audits + [AuditFor(x.job, p.r)]) else x.(auditFault := true)
    case Post(response) => if response == Blocked then x else x.(hooks := x.hooks + [HookFor(p.o)])
  }

  function NextPoint(c: Config, x: Entry, p: Point, e: Effect, vault: Vault.State): Point
    requires Fits(c, p, e, vault)
  {
    match e
    case Mark(_) => Marked
    case Open(ok) => if ok && x.spool.Some? then Scanning(x.spool.value) else OpenFailed
    case Scan(seen, out) => AfterScan(c, p.content, seen, out)
    case Isolate(rewinds, q) =>
      var id := if q.Some? && Vault.Quarantine(c.vault, vault, q.value).1.Some? then q.value.id else "";
      Discarding(Report(Clamd.Infected, p.virus, p.sha, id, rewinds, q))
    case Fail(_) => if p.OpenFailed? then Posting(Unopened, 1) else Leaving(Unscanned)
    case Discard(_) => Completing(p.r)
    case Complete(_) => Auditing(p.r)
    case Record(_) => Posting(Reported(p.r), 1)
    case Post(response) => if response == Retry && p.attempt < 3 then Posting(p.o, p.attempt + 1) else Leaving(p.o)
  }

  // ---- Steps of the whole system ----

  predicate BusyAt(s: State, w: nat) {
    w < |s.workers| && s.workers[w].Busy? && s.workers[w].id in s.jobs
  }

  predicate IsAt(s: State, id: JobId, at: Place) {
    id in s.jobs && s.jobs[id].at == at
  }

  predicate Enabled(c: Config, s: State, e: Event) {
    match e
    case Begin(id, _) => id !in s.jobs
    case Copy(id, chunk) =>
      IsAt(s, id, Copying) && var x := s.jobs[id]; x.spool.Some? && x.spool.value + chunk <= x.job.payload
    case EndCopy(id, ok, _) => IsAt(s, id, Copying) && (ok ==> s.jobs[id].spool == Some(s.jobs[id].job.payload))
    case Insert(id, _, _) => IsAt(s, id, Copied)
    case Send(id) => IsAt(s, id, Inserted)
    case Close => !s.closed
    case Receive(w) =>
      && w < |s.workers| && s.workers[w].Waiting?
      && (if s.channel == [] then s.closed else s.channel[0] in s.jobs)
    case Work(w, effect) => BusyAt(s, w) && Fits(c, s.workers[w].at, effect, s.vault)
    case Leave(w, _) => BusyAt(s, w) && s.workers[w].at.Leaving?
    case Elsewhere(op) => Vault.Enabled(s.vault, op)
  }

  function Apply(c: Config, s: State, e: Event): State
    requires Enabled(c, s, e)
  {
    match e
    case Begin(id, job) =>
      s.(jobs := s.jobs[id := Entry(job, Copying, None, Some([]), [], [], {}, false, false, false)])
    case Copy(id, chunk) =>
      var x := s.jobs[id];
      s.(jobs := s.jobs[id := x.(spool := Some(x.spool.value + chunk))])
    case EndCopy(id, ok, removes) =>
      var x := s.jobs[id];
      s.(jobs := s.jobs[id := if ok then x.(at := Copied) else Remove(x, removes).(at := Aborted)])
    case Insert(id, ok, removes) =>
      var x := s.jobs[id];
      s.(jobs := s.jobs[id := if ok then x.(at := Inserted, row := Some(QUEUED))
                              else Remove(x, removes).(at := Aborted, rowFault := true)])
    case Send(id) =>
      var x := s.jobs[id];
      if s.closed then s.(jobs := s.jobs[id := x.(at := Panicked)])
      else if |s.channel| < c.capacity then
        s.(jobs := s.jobs[id := x.(at := InChannel)], channel := s.channel + [id])
      else s.(jobs := s.jobs[id := x.(at := Dropped)])
    case Close => s.(closed := true)
    case Receive(w) =>
      if s.channel == [] then s.(workers := s.workers[w := Stopped])
      else
        var id := s.channel[0];
        s.(jobs := s.jobs[id := s.jobs[id].(at := HeldBy(w))], channel := s.channel[1..],
           workers := s.workers[w := Busy(id, Received)])
    case Work(w, effect) =>
      var id, p := s.workers[w].id, s.workers[w].at;
      s.(jobs := s.jobs[id := EffectOnEntry(c, s.jobs[id], p, effect, s.vault)],
         workers := s.workers[w := Busy(id, NextPoint(c, s.jobs[id], p, effect, s.vault))],
         vault := EffectOnVault(c, p, effect, s.vault))
    case Leave(w, ok) =>
      var id, p := s.workers[w].id, s.workers[w].at;
      s.(jobs := s.jobs[id := Remove(s.jobs[id], ok).(at := Done(p.o))], workers := s.workers[w := Waiting])
    case Elsewhere(op) => s.(vault := Vault.Apply(c.vault, s.vault, op))
  }

  function Start(workers: nat, vault: Vault.State): State {
    State(map[], [], false, seq(workers, i => Waiting), vault)
  }

  predicate Runs(c: Config, s: State, es: seq<Event>)
    decreases |es|
  {
    es == [] || (Enabled(c, s, es[0]) && Runs(c, Apply(c, s, es[0]), es[1..]))
  }

  function After(c: Config, s: State, es: seq<Event>): State
    requires Runs(c, s, es)
    decreases |es|
  {
    if es == [] then s else After(c, Apply(c, s, es[0]), es[1..])
  }
}
