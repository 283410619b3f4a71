/** What every event of the asynchronous queue keeps. */
module QueueInvariant {
  import opened Basics
  import opened AsyncQueue
  import Clamd
  import Vault

  // ---- One job ----

  /** Nothing has happened to the job since its row was inserted. */
  predicate Untouched(x: Entry) {
    x.row == Some(QUEUED) && x.spool == Some(x.job.payload) && Traceless(x) && Faultless(x)
  }

  predicate Faultless(x: Entry) {
    !x.rowFault && !x.auditFault && !x.diskFault
  }

  predicate Unreported(x: Entry) {
    x.audits == [] && x.hooks == []
  }

  predicate Traceless(x: Entry) {
    Unreported(x) && x.isolated == {}
  }

  predicate Unfinished(row: Option<Row>) {
    row == Some(QUEUED) || row == Some(PROCESSING)
  }

  /** The row says that the job is under way, unless a write of it failed. */
  predicate UnderWay(x: Entry) {
    x.row == Some(PROCESSING) || (x.rowFault && x.row == Some(QUEUED))
  }

  /** The job is held, and neither its row nor its spool file is final. */
  predicate InProgress(x: Entry) {
    UnderWay(x) && x.spool == Some(x.job.payload) && Traceless(x)
  }

  /** As long as they are there, the record `id` of the vault is about this content, and its file is the
      content's stored form. */
  ghost predicate Holds(c: Config, vault: Vault.State, id: string, content: Bytes, virus: string) {
    && id in vault.issued
    && (id in vault.files ==> Vault.IsStoredForm(c.vault, content, vault.files[id].bytes))
    && (id in vault.records ==> vault.records[id].sha == c.vault.sha(content) && vault.records[id].virus == virus)
  }

  /** Digest, verdict and name are those of the upload. */
  predicate Observed(c: Config, payload: Bytes, verdict: Clamd.Verdict, virus: string, sha: string) {
    && sha == c.vault.sha(payload)
    && var says := Clamd.DaemonSays(c.daemon, payload);
       says.error.None? && verdict == says.result.verdict && virus == says.result.virusName
  }

  ghost predicate Truthful(c: Config, vault: Vault.State, payload: Bytes, r: Report) {
    && Observed(c, payload, r.verdict, r.virus, r.sha)
    && (r.verdict == Clamd.Clean || r.verdict == Clamd.Infected)
    && (r.quarantineId != "" ==>
          r.verdict == Clamd.Infected && Holds(c, vault, r.quarantineId, ReadBack(payload, r.rewound), r.virus))
  }

  /** The vault was given what could be read back, and accepts it. */
  predicate VaultAccepts(c: Config, payload: Bytes, r: Report) {
    r.given.Some? && r.given.value.raw == ReadBack(payload, r.rewound) && Vault.Accepts(c.vault, r.given.value)
  }

  /** The records that the isolation has added are the one the report names; there is one exactly if the
      vault accepts what it was given. */
  predicate Isolated(c: Config, x: Entry, r: Report) {
    && x.isolated == (if r.quarantineId == "" then {} else {r.quarantineId})
    && (r.quarantineId != "" <==> VaultAccepts(c, x.job.payload, r))
    && (r.given.Some? ==> r.given.value.raw == ReadBack(x.job.payload, r.rewound))
    && (!x.diskFault ==> r.rewound)
  }

  /** The row tells the outcome, unless a write of it failed. */
  predicate RowTells(x: Entry, o: Outcome) {
    x.row == Some(RowFor(o)) || (x.rowFault && Unfinished(x.row))
  }

  predicate HooksTell(x: Entry, o: Outcome, most: nat) {
    && |x.hooks| <= most
    && (forall i :: 0 <= i < |x.hooks| ==> x.hooks[i] == HookFor(o))
  }

  predicate AuditsTell(x: Entry, o: Outcome) {
    var told := if o.Reported? then [AuditFor(x.job, o.report)] else [];
    x.audits == told || (x.auditFault && x.audits == [])
  }

  /** Row, audit trail and webhooks tell of the outcome; a missing part means a failed write. */
  ghost predicate Settled(c: Config, vault: Vault.State, x: Entry, o: Outcome, posts: nat) {
    && RowTells(x, o) && AuditsTell(x, o) && HooksTell(x, o, posts)
    && (if o.Reported? then Truthful(c, vault, x.job.payload, o.report) && Isolated(c, x, o.report)
        else x.isolated == {})
    && (o.Unscanned? ==> x.hooks == [])
    && (o.Unopened? ==> x.diskFault)
  }

  predicate Gone(x: Entry) {
    x.diskFault || x.spool == None
  }

  ghost predicate HeldOk(c: Config, vault: Vault.State, x: Entry, p: Point) {
    match p
    case Received => Untouched(x)
    case Marked => InProgress(x)
    case OpenFailed => InProgress(x) && x.diskFault
    case Scanning(content) => InProgress(x) && content == x.job.payload
    case ScanFailed => InProgress(x)
    case Isolating(content, virus, sha) =>
      && InProgress(x) && content == x.job.payload
      && Observed(c, content, Clamd.Infected, virus, sha)
    case Discarding(r) =>
      && UnderWay(x) && x.spool == Some(x.job.payload) && Unreported(x)
      && Truthful(c, vault, x.job.payload, r) && Isolated(c, x, r)
    case Completing(r) =>
      && UnderWay(x) && Unreported(x) && Gone(x)
      && Truthful(c, vault, x.job.payload, r) && Isolated(c, x, r)
    case Auditing(r) =>
      && RowTells(x, Reported(r)) && Unreported(x) && Gone(x)
      && Truthful(c, vault, x.job.payload, r) && Isolated(c, x, r)
    case Posting(o, attempt) =>
      1 <= attempt <= 3 && !o.Unscanned? && (o.Reported? ==> Gone(x)) && Settled(c, vault, x, o, attempt - 1)
    case Leaving(o) => Settled(c, vault, x, o, 3)
  }

  predicate Unrecorded(x: Entry) {
    x.row == None && Traceless(x) && Faultless(x)
  }

  ghost predicate JobOk(c: Config, s: State, x: Entry) {
    match x.at
    case Copying => Unrecorded(x) && x.spool.Some? && x.spool.value <= x.job.payload
    case Copied => Unrecorded(x) && x.spool == Some(x.job.payload)
    case Aborted => x.row == None && Traceless(x) && Gone(x)
    case HeldBy(w) => w < |s.workers| && s.workers[w].Busy? && HeldOk(c, s.vault, x, s.workers[w].at)
    case Done(o) => Settled(c, s.vault, x, o, 3) && Gone(x)
    case _ => Untouched(x)
  }

  // ---- Channel, workers and places ----

  predicate Distinct(q: seq<JobId>) {
    forall i, j :: 0 <= i < j < |q| ==> q[i] != q[j]
  }

  predicate ChannelLinked(c: Config, s: State) {
    && |s.channel| <= c.capacity
    && Distinct(s.channel)
    && (forall id :: id in s.channel ==> IsAt(s, id, InChannel))
    && (forall id :: id in s.jobs && s.jobs[id].at == InChannel ==> id in s.channel)
  }

  predicate WorkersLinked(s: State) {
    && (forall w :: 0 <= w < |s.workers| && s.workers[w].Busy? ==> IsAt(s, s.workers[w].id, HeldBy(w)))
    && (forall id :: id in s.jobs && s.jobs[id].at.HeldBy? ==>
          var w := s.jobs[id].at.w; w < |s.workers| && s.workers[w].Busy? && s.workers[w].id == id)
    && (forall w :: 0 <= w < |s.workers| && s.workers[w].Stopped? ==> s.closed && s.channel == [])
  }

  ghost predicate Inv(c: Config, s: State) {
    && ChannelLinked(c, s) && WorkersLinked(s)
    && Vault.Accounted(s.vault)
    && forall id :: id in s.jobs ==> JobOk(c, s, s.jobs[id])
  }

  // ---- Preservation ----

  /** What IDs that were issued before still name is what they named, but for the status of records. */
  predicate Grows(v: Vault.State, u: Vault.State) {
    && v.issued <= u.issued
    && (forall id :: id in v.issued && id in u.records ==>
          id in v.records && u.records[id] == v.records[id].(status := u.records[id].status))
    && (forall id :: id in v.issued && id in u.files ==> id in v.files && u.files[id] == v.files[id])
  }

  lemma OtherJob(c: Config, s: State, t: State, x: Entry)
    requires JobOk(c, s, x) && Grows(s.vault, t.vault)
    requires x.at.HeldBy? ==> |t.workers| == |s.workers| && t.workers[x.at.w] == s.workers[x.at.w]
    ensures JobOk(c, t, x)
  {
  }

  lemma EffectKeeps(c: Config, x: Entry, p: Point, e: Effect, vault: Vault.State)
    requires Fits(c, p, e, vault) && HeldOk(c, vault, x, p)
    requires Vault.Accounted(vault)
    ensures Grows(vault, EffectOnVault(c, p, e, vault))
    ensures HeldOk(c, EffectOnVault(c, p, e, vault), EffectOnEntry(c, x, p, e, vault), NextPoint(c, x, p, e, vault))
  {
    match e {
      case Isolate(rewinds, q) => IsolateKeeps(c, x, p, rewinds, q, vault);
      case Post(response) => PostKeeps(c, x, p, response, vault);
      case Scan(seen, out) => ScanKeeps(c, x, p, seen, out, vault);
      case Mark(_) => StartKeeps(c, x, p, e, vault);
      case Open(_) => StartKeeps(c, x, p, e, vault);
      case Fail(_) => StartKeeps(c, x, p, e, vault);
      case Discard(ok) => DiscardKeeps(c, x, p, ok, vault);
      case Complete(ok) => CompleteKeeps(c, x, p, ok, vault);
      case Record(ok) => RecordKeeps(c, x, p, ok, vault);
    }
  }

  lemma IsolateKeeps(c: Config, x: Entry, p: Point, rewinds: bool, q: Option<Vault.Incoming>, vault: Vault.State)
    requires Fits(c, p, Isolate(rewinds, q), vault) && HeldOk(c, vault, x, p) && Vault.Accounted(vault)
    ensures Grows(vault, EffectOnVault(c, p, Isolate(rewinds, q), vault))
    ensures var e := Isolate(rewinds, q);
            HeldOk(c, EffectOnVault(c, p, e, vault), EffectOnEntry(c, x, p, e, vault), NextPoint(c, x, p, e, vault))
  {
    if q.Some? {
      IsolationHolds(c, vault, q.value);
      QuarantineGrows(c.vault, vault, q.value);
    }
  }

  lemma PostKeeps(c: Config, x: Entry, p: Point, response: Response, vault: Vault.State)
    requires Fits(c, p, Post(response), vault) && HeldOk(c, vault, x, p)
    ensures HeldOk(c, vault, EffectOnEntry(c, x, p, Post(response), vault), NextPoint(c, x, p, Post(response), vault))
  {
  }

  lemma ScanKeeps(c: Config, x: Entry, p: Point, seen: Bytes, out: Clamd.Outcome, vault: Vault.State)
    requires Fits(c, p, Scan(seen, out), vault) && HeldOk(c, vault, x, p)
    ensures HeldOk(c, vault, x, AfterScan(c, p.content, seen, out))
  {
  }

  lemma StartKeeps(c: Config, x: Entry, p: Point, e: Effect, vault: Vault.State)
    requires Fits(c, p, e, vault) && HeldOk(c, vault, x, p) && (e.Mark? || e.Open? || e.Fail?)
    ensures HeldOk(c, vault, EffectOnEntry(c, x, p, e, vault), NextPoint(c, x, p, e, vault))
  {
  }

  lemma DiscardKeeps(c: Config, x: Entry, p: Point, ok: bool, vault: Vault.State)
    requires p.Discarding? && HeldOk(c, vault, x, p)
    ensures HeldOk(c, vault, Remove(x, ok), Completing(p.r))
  {
  }

  lemma CompleteKeeps(c: Config, x: Entry, p: Point, ok: bool, vault: Vault.State)
    requires p.Completing? && HeldOk(c, vault, x, p)
    ensures HeldOk(c, vault, Update(x, RowFor(Reported(p.r)), ok), Auditing(p.r))
  {
  }

  lemma RecordKeeps(c: Config, x: Entry, p: Point, ok: bool, vault: Vault.State)
    requires p.Auditing? && HeldOk(c, vault, x, p)
    ensures HeldOk(c, vault, EffectOnEntry(c, x, p, Record(ok), vault), Posting(Reported(p.r), 1))
  {
  }

  /** An isolation adds the record it returns, if any, and that record holds what was read. */
  lemma IsolationHolds(c: Config, vault: Vault.State, q: Vault.Incoming)
    requires Vault.Accounted(vault) && Vault.Legal(vault, q)
    ensures var (u, rec) := Vault.Quarantine(c.vault, vault, q);
            && u.records.Keys - vault.records.Keys == (if rec.Some? then {q.id} else {})
            && (rec.Some? <==> Vault.Accepts(c.vault, q))
            && (rec.Some? ==> Holds(c, u, q.id, q.raw, q.virus))
  {
    Vault.QuarantineAccepts(c.vault, vault, q);
  }

  /** The job an event is about, if it is about one. */
  function Subject(s: State, e: Event): Option<JobId> {
    match e
    case Close => None
    case Elsewhere(_) => None
    case Receive(_) => if s.channel == [] then None else Some(s.channel[0])
    case Work(w, _) => if w < |s.workers| && s.workers[w].Busy? then Some(s.workers[w].id) else None
    case Leave(w, _) => if w < |s.workers| && s.workers[w].Busy? then Some(s.workers[w].id) else None
    case _ => Some(e.id)
  }

  predicate IsSubmit(e: Event) {
    e.Begin? || e.Copy? || e.EndCopy? || e.Insert? || e.Send?
  }

  lemma Push(q: seq<JobId>, id: JobId)
    requires Distinct(q) && id !in q
    ensures Distinct(q + [id])
    ensures forall j :: j in q + [id] <==> j in q || j == id
  {
  }

  lemma Pop(q: seq<JobId>)
    requires Distinct(q) && q != []
    ensures Distinct(q[1..])
    ensures forall j :: j in q[1..] <==> j in q && j != q[0]
  {
    assert q == [q[0]] + q[1..];
    assert forall i :: 0 <= i < |q[1..]| ==> q[1..][i] == q[i + 1];
  }

  lemma SendKeepsChannel(c: Config, s: State, id: JobId)
    requires Inv(c, s) && Enabled(c, s, Send(id))
    ensures ChannelLinked(c, Apply(c, s, Send(id)))
  {
    var t := Apply(c, s, Send(id));
    assert id !in s.channel;
    Push(s.channel, id);
  }

  lemma ReceiveKeepsChannel(c: Config, s: State, w: nat)
    requires Inv(c, s) && Enabled(c, s, Receive(w))
    ensures ChannelLinked(c, Apply(c, s, Receive(w)))
  {
    var t := Apply(c, s, Receive(w));
    if s.channel != [] {
      Pop(s.channel);
    }
  }

  lemma SubmitKeepsChannel(c: Config, s: State, e: Event)
    requires Inv(c, s) && Enabled(c, s, e) && IsSubmit(e) && !e.Send?
    ensures ChannelLinked(c, Apply(c, s, e))
  {
    assert e.id in s.jobs ==> s.jobs[e.id].at != InChannel;
    OneJobKeepsChannel(c, s, Apply(c, s, e), e.id);
  }

  lemma WorkKeepsChannel(c: Config, s: State, e: Event)
    requires Inv(c, s) && Enabled(c, s, e) && (e.Work? || e.Leave?)
    ensures ChannelLinked(c, Apply(c, s, e))
  {
    var id := s.workers[e.w].id;
    assert s.jobs[id].at == HeldBy(e.w);
    if e.Work? {
      EffectKeepsPlace(c, s.jobs[id], s.workers[e.w].at, e.effect, s.vault);
    }
    OneJobKeepsChannel(c, s, Apply(c, s, e), id);
  }

  /** A change to a job that is not on the channel and does not get there. */
  lemma OneJobKeepsChannel(c: Config, s: State, t: State, id: JobId)
    requires ChannelLinked(c, s) && t.channel == s.channel
    requires id in t.jobs && t.jobs == s.jobs[id := t.jobs[id]]
    requires (id in s.jobs ==> s.jobs[id].at != InChannel) && t.jobs[id].at != InChannel
    ensures ChannelLinked(c, t)
  {
  }

  lemma ChannelKept(c: Config, s: State, e: Event)
    requires Inv(c, s) && Enabled(c, s, e)
    ensures ChannelLinked(c, Apply(c, s, e))
  {
    match e {
      case Close =>
      case Elsewhere(_) =>
      case Send(id) => SendKeepsChannel(c, s, id);
      case Receive(w) => ReceiveKeepsChannel(c, s, w);
      case Work(_, _) => WorkKeepsChannel(c, s, e);
      case Leave(_, _) => WorkKeepsChannel(c, s, e);
      case _ => SubmitKeepsChannel(c, s, e);
    }
  }

  lemma SubmitKeepsWorkers(c: Config, s: State, e: Event)
    requires Inv(c, s) && Enabled(c, s, e) && IsSubmit(e)
    ensures WorkersLinked(Apply(c, s, e))
  {
    var t := Apply(c, s, e);
    assert e.id in s.jobs ==> !s.jobs[e.id].at.HeldBy?;
    assert !t.jobs[e.id].at.HeldBy?;
    assert t.jobs == s.jobs[e.id := t.jobs[e.id]] && t.workers == s.workers;
  }

  lemma ReceiveKeepsWorkers(c: Config, s: State, w: nat)
    requires Inv(c, s) && Enabled(c, s, Receive(w))
    ensures WorkersLinked(Apply(c, s, Receive(w)))
  {
    if s.channel != [] {
      assert IsAt(s, s.channel[0], InChannel);
    }
  }

  lemma WorkKeepsWorkers(c: Config, s: State, e: Event)
    requires Inv(c, s) && Enabled(c, s, e) && (e.Work? || e.Leave?)
    ensures WorkersLinked(Apply(c, s, e))
  {
    var id := s.workers[e.w].id;
    assert s.jobs[id].at == HeldBy(e.w);
    if e.Work? {
      EffectKeepsPlace(c, s.jobs[id], s.workers[e.w].at, e.effect, s.vault);
    }
    OneWorkerMoves(s, Apply(c, s, e), e.w, s.workers[e.w].id);
  }

  /** A worker goes on with its job, or is done with it. */
  lemma OneWorkerMoves(s: State, t: State, w: nat, id: JobId)
    requires WorkersLinked(s) && t.closed == s.closed && t.channel == s.channel
    requires w < |s.workers| && s.workers[w].Busy? && s.workers[w].id == id && id in s.jobs && id in t.jobs
    requires |t.workers| == |s.workers| && t.workers == s.workers[w := t.workers[w]]
    requires t.jobs == s.jobs[id := t.jobs[id]]
    requires if t.workers[w].Busy? then t.workers[w].id == id && t.jobs[id].at == HeldBy(w)
             else t.workers[w].Waiting? && !t.jobs[id].at.HeldBy?
    ensures WorkersLinked(t)
  {
  }

  lemma WorkersKept(c: Config, s: State, e: Event)
    requires Inv(c, s) && Enabled(c, s, e)
    ensures WorkersLinked(Apply(c, s, e))
  {
    match e {
      case Close =>
      case Elsewhere(_) =>
      case Receive(w) => ReceiveKeepsWorkers(c, s, w);
      case Work(_, _) => WorkKeepsWorkers(c, s, e);
      case Leave(_, _) => WorkKeepsWorkers(c, s, e);
      case _ => SubmitKeepsWorkers(c, s, e);
    }
  }

  lemma SubmittedKept(c: Config, s: State, e: Event)
    requires Inv(c, s) && Enabled(c, s, e) && IsSubmit(e)
    ensures var t := Apply(c, s, e); t.vault == s.vault && JobOk(c, t, t.jobs[e.id])
  {
  }

  lemma ReceivedKept(c: Config, s: State, w: nat)
    requires Inv(c, s) && Enabled(c, s, Receive(w)) && s.channel != []
    ensures var t := Apply(c, s, Receive(w)); t.vault == s.vault && JobOk(c, t, t.jobs[s.channel[0]])
  {
    assert IsAt(s, s.channel[0], InChannel);
  }

  lemma WorkedOnKept(c: Config, s: State, w: nat, effect: Effect)
    requires Inv(c, s) && Enabled(c, s, Work(w, effect))
    ensures var t := Apply(c, s, Work(w, effect));
            Grows(s.vault, t.vault) && JobOk(c, t, t.jobs[s.workers[w].id])
  {
    var id, p := s.workers[w].id, s.workers[w].at;
    assert IsAt(s, id, HeldBy(w));
    EffectKeeps(c, s.jobs[id], p, effect, s.vault);
    EffectKeepsPlace(c, s.jobs[id], p, effect, s.vault);
    var y, q := EffectOnEntry(c, s.jobs[id], p, effect, s.vault), NextPoint(c, s.jobs[id], p, effect, s.vault);
    HeldJobOk(c, Apply(c, s, Work(w, effect)), w, y, q);
  }

  lemma EffectKeepsPlace(c: Config, x: Entry, p: Point, e: Effect, vault: Vault.State)
    requires Fits(c, p, e, vault)
    ensures EffectOnEntry(c, x, p, e, vault).at == x.at
  {
  }

  lemma HeldJobOk(c: Config, t: State, w: nat, x: Entry, p: Point)
    requires x.at == HeldBy(w) && w < |t.workers| && t.workers[w].Busy? && t.workers[w].at == p
    requires HeldOk(c, t.vault, x, p)
    ensures JobOk(c, t, x)
  {
  }

  lemma LeftKept(c: Config, s: State, w: nat, ok: bool)
    requires Inv(c, s) && Enabled(c, s, Leave(w, ok))
    ensures var t := Apply(c, s, Leave(w, ok)); t.vault == s.vault && JobOk(c, t, t.jobs[s.workers[w].id])
  {
    var id, o := s.workers[w].id, s.workers[w].at.o;
    assert IsAt(s, id, HeldBy(w)) && JobOk(c, s, s.jobs[id]);
    RemovalSettles(c, s.vault, s.jobs[id], o, ok);
  }

  lemma RemovalSettles(c: Config, vault: Vault.State, x: Entry, o: Outcome, ok: bool)
    requires Settled(c, vault, x, o, 3)
    ensures var y := Remove(x, ok).(at := Done(o)); Settled(c, vault, y, o, 3) && Gone(y)
  {
  }

  lemma SubjectKept(c: Config, s: State, e: Event)
    requires Inv(c, s) && Enabled(c, s, e) && Subject(s, e).Some?
    ensures var t, id := Apply(c, s, e), Subject(s, e).value;
            id in t.jobs && Grows(s.vault, t.vault) && JobOk(c, t, t.jobs[id])
  {
    match e {
      case Receive(w) => ReceivedKept(c, s, w);
      case Work(w, effect) => WorkedOnKept(c, s, w, effect);
      case Leave(w, ok) => LeftKept(c, s, w, ok);
      case _ => SubmittedKept(c, s, e);
    }
  }

  lemma OthersKept(c: Config, s: State, e: Event, id: JobId)
    requires Inv(c, s) && Enabled(c, s, e) && id in s.jobs && Some(id) != Subject(s, e)
    requires Grows(s.vault, Apply(c, s, e).vault)
    ensures var t := Apply(c, s, e); id in t.jobs && t.jobs[id] == s.jobs[id] && JobOk(c, t, t.jobs[id])
  {
    OtherJob(c, s, Apply(c, s, e), s.jobs[id]);
  }

  lemma QuarantineGrows(c: Vault.Config, v: Vault.State, q: Vault.Incoming)
    requires Vault.Accounted(v) && Vault.Legal(v, q)
    ensures Grows(v, Vault.Quarantine(c, v, q).0) && Vault.Accounted(Vault.Quarantine(c, v, q).0)
  {
  }

  lemma RestoreGrows(v: Vault.State, id: string, whitelist: bool, updates: bool, lists: bool)
    requires Vault.Accounted(v)
    ensures var u := Vault.RestoreRecord(v, id, whitelist, updates, lists).0; Grows(v, u) && Vault.Accounted(u)
  {
  }

  lemma RemovalGrows(c: Vault.Config, v: Vault.State, op: Vault.Op)
    requires Vault.Accounted(v) && (op.Delete? || op.Purge?)
    ensures Grows(v, Vault.Apply(c, v, op)) && Vault.Accounted(Vault.Apply(c, v, op))
  {
  }

  lemma ElsewhereGrows(c: Vault.Config, v: Vault.State, op: Vault.Op)
    requires Vault.Accounted(v) && Vault.Enabled(v, op)
    ensures Grows(v, Vault.Apply(c, v, op)) && Vault.Accounted(Vault.Apply(c, v, op))
  {
    match op {
      case Isolate(q) => QuarantineGrows(c, v, q);
      case Scan(_, _, q) => QuarantineGrows(c, v, q);
      case Restore(id, w, db) => RestoreGrows(v, id, w, db.updates, db.lists);
      case ApiRestore(id, w, db) => RestoreGrows(v, id, w, db.updates, db.lists);
      case _ => RemovalGrows(c, v, op);
    }
  }

  lemma VaultGrows(c: Config, s: State, e: Event)
    requires Inv(c, s) && Enabled(c, s, e)
    ensures Grows(s.vault, Apply(c, s, e).vault) && Vault.Accounted(Apply(c, s, e).vault)
  {
    match e {
      case Work(_, Isolate(_, Some(q))) => QuarantineGrows(c.vault, s.vault, q);
      case Elsewhere(op) => ElsewhereGrows(c.vault, s.vault, op);
      case _ =>
    }
  }

  lemma JobKept(c: Config, s: State, e: Event, id: JobId)
    requires Inv(c, s) && Enabled(c, s, e) && id in Apply(c, s, e).jobs
    requires Grows(s.vault, Apply(c, s, e).vault)
    ensures JobOk(c, Apply(c, s, e), Apply(c, s, e).jobs[id])
  {
    if Some(id) == Subject(s, e) {
      SubjectKept(c, s, e);
    } else {
      OnlySubjectChanges(c, s, e, id);
      OthersKept(c, s, e, id);
    }
  }

  lemma OnlySubjectChanges(c: Config, s: State, e: Event, id: JobId)
    requires Enabled(c, s, e) && id in Apply(c, s, e).jobs && Some(id) != Subject(s, e)
    ensures id in s.jobs && Apply(c, s, e).jobs[id] == s.jobs[id]
  {
  }

  lemma JobsKept(c: Config, s: State, e: Event)
    requires Inv(c, s) && Enabled(c, s, e)
    ensures var t := Apply(c, s, e); Vault.Accounted(t.vault) && forall id :: id in t.jobs ==> JobOk(c, t, t.jobs[id])
  {
    VaultGrows(c, s, e);
    forall id | id in Apply(c, s, e).jobs ensures JobOk(c, Apply(c, s, e), Apply(c, s, e).jobs[id]) {
      JobKept(c, s, e, id);
    }
  }

  lemma InvKept(c: Config, s: State, e: Event)
    requires Inv(c, s) && Enabled(c, s, e)
    ensures Inv(c, Apply(c, s, e))
  {
    ChannelKept(c, s, e);
    WorkersKept(c, s, e);
    JobsKept(c, s, e);
  }

  /** Every run keeps the invariant, whatever the interleaving and whatever fails. */
  lemma {:induction false} RunsKeepInv(c: Config, s: State, es: seq<Event>)
    requires Inv(c, s) && Runs(c, s, es)
    ensures Inv(c, After(c, s, es))
    decreases |es|
  {
    if es == [] {
    } else {
      InvKept(c, s, es[0]);
      RunsKeepInv(c, Apply(c, s, es[0]), es[1..]);
    }
  }
}
