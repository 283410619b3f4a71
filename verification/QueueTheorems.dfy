/** What holds in every reachable state of the asynchronous queue, and over its runs. */
module QueueTheorems {
  import opened Basics
  import opened AsyncQueue
  import opened QueueInvariant
  import Aes
  import Clamd
  import Vault

  /** A state that some run of some queue reaches. */
  ghost predicate Reachable(c: Config, s: State) {
    exists workers: nat, vault: Vault.State, es: seq<Event> :: Reaches(c, workers, vault, es, s)
  }

  ghost predicate Reaches(c: Config, workers: nat, vault: Vault.State, es: seq<Event>, s: State) {
    && Vault.Accounted(vault)
    && Runs(c, Start(workers, vault), es) && After(c, Start(workers, vault), es) == s
  }

  lemma ReachableInv(c: Config, s: State)
    requires Reachable(c, s)
    ensures Inv(c, s)
  {
    var workers: nat, vault: Vault.State, es: seq<Event> :| Reaches(c, workers, vault, es, s);
    RunsKeepInv(c, Start(workers, vault), es);
  }

  // ---- Conservation ----

  datatype Spot = Unsent | OnChannel | WithWorker(w: nat) | Finished | TurnedAway | CaughtByClose

  predicate In(s: State, id: JobId, p: Spot) {
    match p
    case Unsent => IsAt(s, id, Inserted)
    case OnChannel => id in s.channel
    case WithWorker(w) => w < |s.workers| && s.workers[w].Busy? && s.workers[w].id == id
    case Finished => id in s.jobs && s.jobs[id].at.Done?
    case TurnedAway => IsAt(s, id, Dropped)
    case CaughtByClose => IsAt(s, id, Panicked)
  }

  /** A job with a row is in exactly one place: not sent yet, on the channel (once), with one worker,
      finished, dropped by the full channel, or lost to the panic of a send after close. */
  lemma ExactlyOneSpot(c: Config, s: State, id: JobId)
    requires Reachable(c, s) && id in s.jobs && s.jobs[id].row.Some?
    ensures exists p :: In(s, id, p) && forall q :: In(s, id, q) ==> q == p
    ensures multiset(s.channel)[id] <= 1
  {
    ReachableInv(c, s);
    var p := match s.jobs[id].at
      case InChannel => OnChannel
      case HeldBy(w) => WithWorker(w)
      case Done(_) => Finished
      case Dropped => TurnedAway
      case Panicked => CaughtByClose
      case _ => Unsent;
    assert JobOk(c, s, s.jobs[id]);
    assert In(s, id, p);
    forall q | In(s, id, q) ensures q == p {
      if q.WithWorker? {
        assert IsAt(s, s.workers[q.w].id, HeldBy(q.w));
      }
    }
    AtMostOnce(s.channel, id);
  }

  lemma {:induction false} AtMostOnce(q: seq<JobId>, id: JobId)
    requires Distinct(q)
    ensures multiset(q)[id] <= 1
  {
    if q == [] {
    } else {
      assert q == [q[0]] + q[1..];
      assert Distinct(q[1..]) && q[0] !in q[1..] by {
        Pop(q);
      }
      AtMostOnce(q[1..], id);
    }
  }

  /** No call of SubmitJob is under way, nothing is on the channel and nobody works. */
  predicate Quiet(s: State) {
    && s.channel == []
    && (forall w :: 0 <= w < |s.workers| ==> !s.workers[w].Busy?)
    && (forall id :: id in s.jobs ==> s.jobs[id].at !in {Copying, Copied, Inserted})
  }

  predicate LeftBehind(x: Entry) {
    x.at == Dropped || x.at == Panicked
  }

  /** At rest, and for jobs no write or file operation failed for, the QUEUED rows and the leftover
      spool files are exactly those of the dropped jobs and of those caught by close. */
  lemma LeftoversAtRest(c: Config, s: State, id: JobId)
    requires Reachable(c, s) && Quiet(s) && id in s.jobs
    ensures var x := s.jobs[id];
            && (!x.rowFault ==> (LeftBehind(x) <==> x.row.Some? && x.row.value.status == Queued))
            && (!x.diskFault ==> (LeftBehind(x) <==> x.spool.Some?))
            && (LeftBehind(x) ==> x.spool == Some(x.job.payload))
  {
    ReachableInv(c, s);
    assert JobOk(c, s, s.jobs[id]);
  }

  // ---- The spool ----

  /** A job on the channel has its whole upload in the spool; without a disk fault its file opens;
      and a job a worker is done with has no spool file any more, whichever exit was taken. */
  lemma SpoolFollowsJob(c: Config, s: State, id: JobId)
    requires Reachable(c, s) && id in s.jobs
    ensures var x := s.jobs[id];
            && (id in s.channel ==> x.spool == Some(x.job.payload))
            && (forall w :: 0 <= w < |s.workers| && s.workers[w] == Busy(id, OpenFailed) ==> x.diskFault)
            && (x.at.Done? && !x.diskFault ==> x.spool == None)
  {
    ReachableInv(c, s);
    assert JobOk(c, s, s.jobs[id]);
    assert forall w :: 0 <= w < |s.workers| && s.workers[w].Busy? ==> IsAt(s, s.workers[w].id, HeldBy(w));
  }

  // ---- Status ----

  function Rank(status: Status): nat {
    match status
    case Queued => 0
    case Processing => 1
    case _ => 2
  }

  /** The row stays, its status does not move backwards, and a terminal row does not change. */
  predicate Advances(x: Entry, y: Entry) {
    x.row.Some? ==>
      && y.row.Some?
      && Rank(x.row.value.status) <= Rank(y.row.value.status)
      && (Rank(x.row.value.status) == 2 ==> y.row == x.row)
  }

  lemma EffectAdvances(c: Config, x: Entry, p: Point, e: Effect, vault: Vault.State)
    requires Fits(c, p, e, vault) && HeldOk(c, vault, x, p)
    ensures Advances(x, EffectOnEntry(c, x, p, e, vault))
  {
  }

  lemma WorkAdvances(c: Config, s: State, w: nat, effect: Effect, id: JobId)
    requires Inv(c, s) && Enabled(c, s, Work(w, effect)) && id in s.jobs
    ensures Advances(s.jobs[id], Apply(c, s, Work(w, effect)).jobs[id])
  {
    if s.workers[w].id == id {
      assert IsAt(s, id, HeldBy(w));
      assert JobOk(c, s, s.jobs[id]);
      EffectAdvances(c, s.jobs[id], s.workers[w].at, effect, s.vault);
    }
  }

  /** Only a worker's effect changes a row that is there. */
  lemma RowKept(c: Config, s: State, e: Event, id: JobId)
    requires Inv(c, s) && Enabled(c, s, e) && !e.Work? && id in s.jobs
    ensures id in Apply(c, s, e).jobs
    ensures Apply(c, s, e).jobs[id].row == s.jobs[id].row || s.jobs[id].row == None
  {
    if e.Insert? && e.id == id {
      assert JobOk(c, s, s.jobs[id]);
    }
  }

  lemma EventAdvances(c: Config, s: State, e: Event, id: JobId)
    requires Inv(c, s) && Enabled(c, s, e) && id in s.jobs
    ensures id in Apply(c, s, e).jobs && Advances(s.jobs[id], Apply(c, s, e).jobs[id])
  {
    if e.Work? {
      WorkAdvances(c, s, e.w, e.effect, id);
    } else {
      RowKept(c, s, e, id);
    }
  }

  /** Between any two moments of any run, whichever database writes fail in between. */
  lemma {:induction false} StatusNeverMovesBack(c: Config, s: State, es: seq<Event>, id: JobId)
    requires Inv(c, s) && Runs(c, s, es) && id in s.jobs
    ensures id in After(c, s, es).jobs && Advances(s.jobs[id], After(c, s, es).jobs[id])
    decreases |es|
  {
    if es == [] {
    } else {
      EventAdvances(c, s, es[0], id);
      InvKept(c, s, es[0]);
      StatusNeverMovesBack(c, Apply(c, s, es[0]), es[1..], id);
    }
  }

  /** The row follows the work, unless a write of it failed: QUEUED until a worker has marked it, PROCESSING
      up to the write of the outcome, and then COMPLETED for a report and otherwise FAILED, with the verdict
      ERROR and neither name nor digest. */
  lemma RowFollowsWork(c: Config, s: State, id: JobId)
    requires Reachable(c, s) && id in s.jobs && !s.jobs[id].rowFault
    ensures var x := s.jobs[id];
            && (x.at in {Inserted, InChannel, Dropped, Panicked} ==>
                  x.row.Some? && x.row.value.status == Queued)
            && (x.at.HeldBy? ==>
                  && x.at.w < |s.workers| && s.workers[x.at.w].Busy? && s.workers[x.at.w].id == id
                  && x.row.Some?
                  && match s.workers[x.at.w].at
                     case Received => x.row.value.status == Queued
                     case Auditing(_) => x.row.value.status == Completed
                     case Posting(o, _) => x.row.value.status == if o.Reported? then Completed else Failed
                     case Leaving(o) => x.row.value.status == if o.Reported? then Completed else Failed
                     case _ => x.row.value.status == Processing)
            && (x.at.Done? ==>
                  && x.row.Some?
                  && (if x.at.o.Reported? then x.row.value.status == Completed
                      else x.row.value == Row(Failed, Clamd.Error, "", "")))
  {
    ReachableInv(c, s);
    assert JobOk(c, s, s.jobs[id]);
  }

  // ---- Truthful completion ----

  /** The row of a completed job has the digest of the whole upload, and the verdict and the name that
      the daemon gives for it. Once the job is done and its audit row could be written, there is exactly
      one, which agrees with that, and a quarantine ID in it is the one record that was added for the
      job, about the bytes read back from the spool: all of the upload, unless a disk fault kept the
      file from being rewound. */
  lemma CompletedIsTrue(c: Config, s: State, id: JobId)
    requires Reachable(c, s) && id in s.jobs
    requires s.jobs[id].row.Some? && s.jobs[id].row.value.status == Completed
    ensures var x := s.jobs[id];
            var row := x.row.value;
            && Observed(c, x.job.payload, row.verdict, row.virus, row.sha)
            && (row.verdict == Clamd.Clean || row.verdict == Clamd.Infected)
            && (row.verdict == Clamd.Clean <==> Clamd.SaysClean(c.daemon(x.job.payload)))
            && (row.verdict == Clamd.Infected <==> Clamd.SaysInfected(c.daemon(x.job.payload)))
            && (x.at.Done? ==> x.at.o.Reported?)
            && (x.at.Done? && !x.auditFault ==>
                  && x.audits == [AuditFor(x.job, x.at.o.report)]
                  && var audit := x.audits[0];
                     && audit.sha == row.sha && audit.verdict == row.verdict && audit.virus == row.virus
                     && audit.fileName == x.job.fileName && audit.consumer == x.job.consumer
                     && x.isolated == (if audit.quarantineId == "" then {} else {audit.quarantineId})
                     && (audit.quarantineId != "" ==>
                           && row.verdict == Clamd.Infected
                           && Holds(c, s.vault, audit.quarantineId, ReadBack(x.job.payload, x.at.o.report.rewound),
                                    row.virus))
                     && (!x.diskFault ==> x.at.o.report.rewound))
  {
    ReachableInv(c, s);
    Clamd.ReplyDecides(c.daemon(s.jobs[id].job.payload));
    assert JobOk(c, s, s.jobs[id]);
  }

  /** The file kept for a job, while it is there, decrypts to the upload exactly if the spool file was
      rewound (or there is nothing to lose) and the upload is storable: with any key of 32 bytes, or
      without one when its scrambled bytes do not look encrypted. */
  lemma IsolatedIsUpload(c: Config, s: State, id: JobId)
    requires Aes.Sound(c.vault.aead) && Reachable(c, s) && id in s.jobs
    requires s.jobs[id].at.Done? && s.jobs[id].at.o.Reported? && s.jobs[id].at.o.report.quarantineId != ""
    ensures var payload, r := s.jobs[id].job.payload, s.jobs[id].at.o.report;
            r.quarantineId in s.vault.files ==>
              (Vault.DecryptPayload(c.vault, s.vault.files[r.quarantineId].bytes) == Ok(payload) <==>
               (r.rewound || payload == []) && Vault.Storable(c.vault, payload))
  {
    ReachableInv(c, s);
    var x := s.jobs[id];
    assert JobOk(c, s, x);
    var r := x.at.o.report;
    assert Holds(c, s.vault, r.quarantineId, ReadBack(x.job.payload, r.rewound), r.virus);
    if r.quarantineId in s.vault.files {
      Vault.StoredDecrypts(c.vault, ReadBack(x.job.payload, r.rewound), s.vault.files[r.quarantineId].bytes);
    }
  }

  /** Every webhook ever sent for a job agrees with its row, provided the row could be written; there
      are at most three; and a scan error, unlike an open error, is not reported at all. One about an
      infection always claims that the file was quarantined: that is so exactly if the vault accepted
      what it was given, and then the webhook carries the ID of the one record added for the job. */
  lemma WebhooksMatchRow(c: Config, s: State, id: JobId, i: nat)
    requires Reachable(c, s) && id in s.jobs && i < |s.jobs[id].hooks|
    ensures var x := s.jobs[id];
            var hook := x.hooks[i];
            && |x.hooks| <= 3
            && (x.at.Done? ==> x.at.o != Unscanned)
            && (hook.threat.Some? <==> hook.verdict == Clamd.Infected)
            && (hook.threat.Some? ==>
                  && hook.threat.value.action == "QUARANTINED"
                  && (x.isolated != {} <==> hook.threat.value.quarantineId != "")
                  && (x.isolated != {} ==> hook.threat.value.quarantineId in s.vault.issued
                                           && x.isolated == {hook.threat.value.quarantineId})
                  && (x.at.Done? ==>
                        x.at.o.Reported? && (x.isolated != {} <==> VaultAccepts(c, x.job.payload, x.at.o.report))))
            && (!x.rowFault ==>
                  && x.row.Some? && Rank(x.row.value.status) == 2
                  && hook.status == x.row.value.status && hook.verdict == x.row.value.verdict
                  && hook.sha == x.row.value.sha
                  && (hook.threat.Some? ==> hook.threat.value.virus == x.row.value.virus))
  {
    ReachableInv(c, s);
    assert JobOk(c, s, s.jobs[id]);
  }

  /** The claim can be unfounded: when the payload cannot be read back, no record is added, and the
      webhook that follows claims a quarantine all the same. */
  lemma ActionUnfounded(c: Config, x: Entry, p: Point, rewinds: bool, vault: Vault.State)
    requires p.Isolating?
    ensures var e := Isolate(rewinds, None);
            var q := NextPoint(c, x, p, e, vault);
            && EffectOnEntry(c, x, p, e, vault).isolated == x.isolated && q.Discarding?
            && HookFor(Reported(q.r)).threat == Some(Threat(p.virus, QUARANTINED, ""))
  {
    assert vault.records.Keys - vault.records.Keys == {};
  }

  // ---- What becomes of an isolated file ----

  /** What an event is for the vault. */
  function OpOf(e: Event): Option<Vault.Op> {
    match e
    case Work(_, Isolate(_, Some(q))) => Some(Vault.Isolate(q))
    case Elsewhere(op) => Some(op)
    case _ => None
  }

  function OpsOf(es: seq<Event>): seq<Vault.Op> {
    if es == [] then []
    else (if OpOf(es[0]).Some? then [OpOf(es[0]).value] else []) + OpsOf(es[1..])
  }

  lemma VaultStep(c: Config, s: State, e: Event)
    requires Enabled(c, s, e)
    ensures OpOf(e).None? ==> Apply(c, s, e).vault == s.vault
    ensures OpOf(e).Some? ==>
              && Vault.Enabled(s.vault, OpOf(e).value)
              && Apply(c, s, e).vault == Vault.Apply(c.vault, s.vault, OpOf(e).value)
  {
  }

  /** Seen from the vault, a run of the queue and all others is a run of vault operations: what holds of
      those holds here. */
  lemma {:induction false} VaultRuns(c: Config, s: State, es: seq<Event>)
    requires Runs(c, s, es)
    ensures Vault.Runs(c.vault, s.vault, OpsOf(es))
    ensures After(c, s, es).vault == Vault.After(c.vault, s.vault, OpsOf(es))
    decreases |es|
  {
    if es == [] {
    } else {
      VaultStep(c, s, es[0]);
      VaultRuns(c, Apply(c, s, es[0]), es[1..]);
      if OpOf(es[0]).Some? {
        assert OpsOf(es)[0] == OpOf(es[0]).value && OpsOf(es)[1..] == OpsOf(es[1..]);
      } else {
        assert OpsOf(es) == OpsOf(es[1..]);
      }
    }
  }

  /** Through any run, an isolated file stays with its record exactly if no deletion of it and no purge
      that finds it too old comes by. */
  lemma IsolatedUnlessTaken(c: Config, s: State, es: seq<Event>, qid: string)
    requires Runs(c, s, es) && Vault.Accounted(s.vault) && Vault.Kept(s.vault, qid)
    ensures Vault.Runs(c.vault, s.vault, OpsOf(es))
    ensures Vault.Kept(After(c, s, es).vault, qid) <==> !Vault.Taken(c.vault, s.vault, OpsOf(es), qid)
  {
    VaultRuns(c, s, es);
    Vault.KeptUnlessTaken(c.vault, s.vault, OpsOf(es), qid);
  }

  /** Every record that was added for a job is there, with its file. */
  predicate AllKept(s: State) {
    forall id, qid :: id in s.jobs && qid in s.jobs[id].isolated ==> Vault.Kept(s.vault, qid)
  }

  predicate NoRemoval(es: seq<Event>) {
    forall i :: 0 <= i < |es| && es[i].Elsewhere? ==> !es[i].op.Delete? && !es[i].op.Purge?
  }

  lemma EffectIsolates(c: Config, x: Entry, p: Point, e: Effect, vault: Vault.State, qid: string)
    requires Vault.Accounted(vault) && Fits(c, p, e, vault)
    ensures qid in EffectOnEntry(c, x, p, e, vault).isolated && qid !in x.isolated ==>
              Vault.Kept(EffectOnVault(c, p, e, vault), qid)
  {
  }

  /** What a job has isolated is new, and there. */
  lemma IsolationKept(c: Config, s: State, e: Event, id: JobId, qid: string)
    requires Vault.Accounted(s.vault) && Enabled(c, s, e)
    requires id in Apply(c, s, e).jobs && qid in Apply(c, s, e).jobs[id].isolated
    requires id in s.jobs ==> qid !in s.jobs[id].isolated
    ensures Vault.Kept(Apply(c, s, e).vault, qid)
  {
    if e.Work? {
      EffectIsolates(c, s.jobs[s.workers[e.w].id], s.workers[e.w].at, e.effect, s.vault, qid);
    }
  }

  lemma EventKeepsAll(c: Config, s: State, e: Event)
    requires Vault.Accounted(s.vault) && AllKept(s) && Enabled(c, s, e) && NoRemoval([e])
    ensures AllKept(Apply(c, s, e)) && Vault.Accounted(Apply(c, s, e).vault)
  {
    var t := Apply(c, s, e);
    assert [e][0] == e;
    VaultStep(c, s, e);
    forall id, qid | id in t.jobs && qid in t.jobs[id].isolated ensures Vault.Kept(t.vault, qid) {
      if id in s.jobs && qid in s.jobs[id].isolated {
        assert Vault.Kept(s.vault, qid) && qid in s.vault.records.Keys;
        if OpOf(e).Some? {
          Vault.OpTakes(c.vault, s.vault, OpOf(e).value, qid);
        }
      } else {
        IsolationKept(c, s, e, id, qid);
      }
    }
    if OpOf(e).Some? {
      Vault.OpKeepsAccounted(c.vault, s.vault, OpOf(e).value);
    }
  }

  /** Without deletions and purges, every record added for a job stays, with its file. (With them,
      Vault.KeptUnlessTaken says which of them do.) */
  lemma {:induction false} IsolatedStays(c: Config, s: State, es: seq<Event>)
    requires Runs(c, s, es) && NoRemoval(es) && Vault.Accounted(s.vault) && AllKept(s)
    ensures AllKept(After(c, s, es))
    decreases |es|
  {
    if es == [] {
    } else {
      assert forall i :: 0 <= i < |es[1..]| ==> es[1..][i] == es[i + 1];
      EventKeepsAll(c, s, es[0]);
      IsolatedStays(c, Apply(c, s, es[0]), es[1..]);
    }
  }

  // ---- The whitelist ----

  function Relisted(s: State, whitelist: set<string>): State {
    s.(vault := s.vault.(whitelist := whitelist))
  }

  predicate OwnEvents(es: seq<Event>) {
    forall i :: 0 <= i < |es| ==> !es[i].Elsewhere?
  }

  lemma EventIgnoresWhitelist(c: Config, s: State, e: Event, whitelist: set<string>)
    requires Enabled(c, s, e) && !e.Elsewhere?
    ensures Enabled(c, Relisted(s, whitelist), e)
    ensures Apply(c, Relisted(s, whitelist), e) == Relisted(Apply(c, s, e), whitelist)
  {
    if e.Work? && e.effect.Isolate? && e.effect.q.Some? {
      var v, u := s.vault, Relisted(s, whitelist).vault;
      var a, b := Vault.Quarantine(c.vault, v, e.effect.q.value), Vault.Quarantine(c.vault, u, e.effect.q.value);
      assert b == (a.0.(whitelist := whitelist), a.1);
    }
  }

  /** The queue never asks the whitelist: from two states that differ in nothing else, what is a run of
      its own events for one is a run for the other, and it ends with the same jobs, channel, workers,
      files and records. */
  lemma {:induction false} RunsIgnoreWhitelist(c: Config, s: State, es: seq<Event>, whitelist: set<string>)
    requires Runs(c, s, es) && OwnEvents(es)
    ensures Runs(c, Relisted(s, whitelist), es)
    ensures After(c, Relisted(s, whitelist), es) == Relisted(After(c, s, es), whitelist)
    decreases |es|
  {
    if es == [] {
    } else {
      EventIgnoresWhitelist(c, s, es[0], whitelist);
      assert forall i :: 0 <= i < |es[1..]| ==> es[1..][i] == es[i + 1];
      RunsIgnoreWhitelist(c, Apply(c, s, es[0]), es[1..], whitelist);
    }
  }

  /** So it records listed uploads, where a scan over HTTP or gRPC of the same bytes does not. */
  lemma ListedIsIsolated(c: Config, s: State, w: nat, q: Vault.Incoming)
    requires Vault.Accounted(s.vault) && Enabled(c, s, Work(w, Isolate(true, Some(q))))
    requires Vault.Accepts(c.vault, q) && c.vault.sha(s.workers[w].at.content) in s.vault.whitelist
    ensures var t := Apply(c, s, Work(w, Isolate(true, Some(q))));
            && q.id in t.vault.records && t.vault.records[q.id].sha == c.vault.sha(s.workers[w].at.content)
            && q.id !in Vault.ScanPayload(c.vault, s.vault, true, true, q).records
  {
    Vault.QuarantineAccepts(c.vault, s.vault, q);
  }

  // ---- Stop ----

  function PointRank(p: Point): nat {
    match p
    case Received => 14
    case Marked => 13
    case Scanning(_) => 12
    case Isolating(_, _, _) => 11
    case Discarding(_) => 10
    case Completing(_) => 9
    case Auditing(_) => 8
    case OpenFailed => 7
    case Posting(_, attempt) => if attempt <= 3 then 7 - attempt else 4
    case ScanFailed => 4
    case Leaving(_) => 3
  }

  function WorkerRank(w: Worker): nat {
    match w
    case Stopped => 0
    case Waiting => 1
    case Busy(_, p) => PointRank(p)
  }

  function TotalRank(ws: seq<Worker>): nat {
    if ws == [] then 0 else WorkerRank(ws[0]) + TotalRank(ws[1..])
  }

  /** Work that is left: jobs on the channel, and what the workers still do, webhook attempts included. */
  function Measure(s: State): nat {
    14 * |s.channel| + TotalRank(s.workers)
  }

  lemma {:induction false} TotalRankUpdate(ws: seq<Worker>, w: nat, x: Worker)
    requires w < |ws|
    ensures TotalRank(ws[w := x]) == TotalRank(ws) - WorkerRank(ws[w]) + WorkerRank(x)
  {
    if w == 0 {
      assert ws[w := x][1..] == ws[1..];
    } else {
      assert ws[w := x][1..] == ws[1..][w - 1 := x];
      TotalRankUpdate(ws[1..], w - 1, x);
    }
  }

  predicate IsWork(e: Event) {
    e.Receive? || e.Work? || e.Leave?
  }

  function CountWork(es: seq<Event>): nat {
    if es == [] then 0 else (if IsWork(es[0]) then 1 else 0) + CountWork(es[1..])
  }

  lemma PointDecreases(c: Config, x: Entry, p: Point, e: Effect, vault: Vault.State)
    requires Fits(c, p, e, vault)
    ensures PointRank(NextPoint(c, x, p, e, vault)) < PointRank(p)
  {
  }

  lemma WorkDecreases(c: Config, s: State, e: Event)
    requires Enabled(c, s, e)
    ensures IsWork(e) ==> Measure(Apply(c, s, e)) < Measure(s)
    ensures !IsWork(e) && s.closed ==> Measure(Apply(c, s, e)) == Measure(s)
  {
    if IsWork(e) {
      if e.Work? {
        PointDecreases(c, s.jobs[s.workers[e.w].id], s.workers[e.w].at, e.effect, s.vault);
      }
      TotalRankUpdate(s.workers, e.w, Apply(c, s, e).workers[e.w]);
    }
  }

  /** After close the workers take at most Measure(s) more steps, whatever else happens. */
  lemma {:induction false} WorkAfterCloseIsBounded(c: Config, s: State, es: seq<Event>)
    requires s.closed && Runs(c, s, es)
    ensures After(c, s, es).closed && CountWork(es) + Measure(After(c, s, es)) <= Measure(s)
    decreases |es|
  {
    if es == [] {
    } else {
      WorkDecreases(c, s, es[0]);
      WorkAfterCloseIsBounded(c, Apply(c, s, es[0]), es[1..]);
    }
  }

  /** And after close no worker is ever blocked before it has stopped. */
  lemma NoWorkerBlocks(c: Config, s: State, w: nat) returns (e: Event)
    requires Inv(c, s) && s.closed && w < |s.workers| && s.workers[w] != Stopped
    ensures IsWork(e) && e.w == w && Enabled(c, s, e)
  {
    match s.workers[w] {
      case Waiting =>
        e := Receive(w);
        assert s.channel != [] ==> s.channel[0] in s.channel;
      case Busy(id, p) =>
        assert IsAt(s, id, HeldBy(w));
        e := match p
          case Received => Work(w, Mark(true))
          case Marked => Work(w, Open(true))
          case Scanning(_) => Work(w, Scan(s.jobs[id].job.payload, Clamd.Failed(Clamd.Cancelled)))
          case Isolating(_, _, _) => Work(w, Isolate(true, None))
          case Discarding(_) => Work(w, Discard(true))
          case Completing(_) => Work(w, Complete(true))
          case Auditing(_) => Work(w, Record(true))
          case OpenFailed => Work(w, Fail(true))
          case ScanFailed => Work(w, Fail(true))
          case Posting(_, _) => Work(w, Post(Accepted))
          case Leaving(_) => Leave(w, true);
    }
  }

  predicate AllStopped(s: State) {
    forall w :: 0 <= w < |s.workers| ==> s.workers[w] == Stopped
  }

  /** So from every closed state the workers can run to their end, and Stop returns. */
  lemma {:induction false} StopReturns(c: Config, s: State) returns (es: seq<Event>)
    requires Inv(c, s) && s.closed
    ensures Runs(c, s, es) && AllStopped(After(c, s, es))
    ensures |es| <= Measure(s) && forall i :: 0 <= i < |es| ==> IsWork(es[i])
    decreases Measure(s)
  {
    if AllStopped(s) {
      es := [];
    } else {
      var w :| 0 <= w < |s.workers| && s.workers[w] != Stopped;
      var e := NoWorkerBlocks(c, s, w);
      WorkDecreases(c, s, e);
      InvKept(c, s, e);
      var rest := StopReturns(c, Apply(c, s, e));
      es := [e] + rest;
      assert es[1..] == rest;
    }
  }

  /** The job was put on the channel at some time. */
  predicate WasSent(x: Entry) {
    x.at.InChannel? || x.at.HeldBy? || x.at.Done?
  }

  /** When every worker has stopped, which takes a close, each job that was ever sent is done, with a
      terminal row unless a write of its row failed. */
  lemma StopDrains(c: Config, s: State, id: JobId)
    requires Reachable(c, s) && id in s.jobs && WasSent(s.jobs[id])
    requires s.workers != [] && AllStopped(s)
    ensures s.closed && s.channel == [] && s.jobs[id].at.Done?
    ensures !s.jobs[id].rowFault ==> s.jobs[id].row.Some? && Rank(s.jobs[id].row.value.status) == 2
  {
    ReachableInv(c, s);
    assert JobOk(c, s, s.jobs[id]);
    assert s.workers[0] == Stopped;
  }
}
