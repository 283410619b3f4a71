/** internal/quarantine/vault.go and the tables of internal/storage/sqlite.go it works on. */
module Vault {
  import opened Basics
  import opened Readers
  import Aes
  import opened Bits

  /** "VQF_AESGCM_V1" and a newline. */
  const MAGIC: Bytes := [86, 81, 70, 95, 65, 69, 83, 71, 67, 77, 95, 86, 49, 10]
  const DAY := 24 * 60 * 60 * 1_000_000_000
  const DEFAULT_DAYS := 7

  /** `sha` is the hexadecimal SHA-256 digest; a limit of 0 or less means none. */
  datatype Config = Config(aead: Aes.Aead, sha: Bytes -> string, key: Bytes, limit: int)

  datatype File = File(bytes: Bytes, modified: int)

  datatype Status = Quarantined | Restored

  datatype Record = Record(size: nat, sha: string, virus: string, status: Status, created: int, expires: int)

  /** The vault directory, the two tables, and the IDs handed out so far. File, record and ID are
      keyed by the vault ID, from which the source derives the path. */
  datatype State = State(files: map<string, File>, records: map<string, Record>,
                         whitelist: set<string>, issued: set<string>)

  /** Files and records have IDs that were issued. */
  predicate Accounted(s: State) {
    s.files.Keys <= s.issued && s.records.Keys <= s.issued
  }

  // ---- The stored form ----

  const XOR_MASK := 0xA5

  function Xor(b: Byte): Byte {
    assert Power2(8) == 256;
    XorBits(b as nat, XOR_MASK, 8) as Byte
  }

  function Scrambled(data: Bytes): Bytes {
    if data == [] then [] else [Xor(data[0])] + Scrambled(data[1..])
  }

  lemma XorTwice(b: Byte)
    ensures Xor(Xor(b)) == b
  {
    assert Power2(8) == 256;
    XorBitsTwice(b as nat, XOR_MASK, 8);
  }

  lemma {:induction false} ScrambledTwice(data: Bytes)
    ensures Scrambled(Scrambled(data)) == data
  {
    if data == [] {
    } else {
      XorTwice(data[0]);
      assert Scrambled(data)[1..] == Scrambled(data[1..]);
      ScrambledTwice(data[1..]);
    }
  }

  lemma {:induction false} ScrambledAt(data: Bytes)
    ensures |Scrambled(data)| == |data| && forall i :: 0 <= i < |data| ==> Scrambled(data)[i] == Xor(data[i])
  {
    if data != [] {
      ScrambledAt(data[1..]);
      assert forall i :: 1 <= i < |data| ==> data[i] == data[1..][i - 1];
    }
  }

  lemma {:induction false} ScrambledAppend(data: Bytes, last: Byte)
    ensures Scrambled(data + [last]) == Scrambled(data) + [Xor(last)]
  {
    if data == [] {
    } else {
      assert (data + [last])[1..] == data[1..] + [last];
      ScrambledAppend(data[1..], last);
    }
  }

  /** Scrambling flips the bits 0, 2, 5 and 7 of each byte, counted from the lowest. */
  lemma XorFlips(b: Byte, i: nat)
    requires i < 8
    ensures BitOf(Xor(b) as nat, i) != BitOf(b as nat, i) <==> i in {0, 2, 5, 7}
  {
    XorBitsAt(b as nat, XOR_MASK, 8, i);
    assert High(XOR_MASK, 1) == 82 && High(XOR_MASK, 2) == High(82, 1) == 41 && High(XOR_MASK, 3) == High(41, 1) == 20;
    assert High(XOR_MASK, 4) == High(20, 1) == 10 && High(XOR_MASK, 5) == High(10, 1) == 5;
    assert High(XOR_MASK, 6) == High(5, 1) == 2 && High(XOR_MASK, 7) == High(2, 1) == 1;
  }

  method ScrambleBytes(data: array<Byte>) returns (out: array<Byte>)
    ensures fresh(out) && out[..] == Scrambled(data[..])
  {
    out := new Byte[data.Length];
    for i := 0 to data.Length
      invariant out[..i] == Scrambled(data[..i])
    {
      out[i] := Xor(data[i]);
      ScrambledAppend(data[..i], data[i]);
      assert data[..i + 1] == data[..i] + [data[i]];
      assert out[..i + 1] == out[..i] + [out[i]];
    }
    assert data[..data.Length] == data[..];
  }

  function StoredForm(c: Config, raw: Bytes, nonce: Option<Bytes>): Result<Bytes, Aes.CryptoError>
    requires nonce.Some? ==> |nonce.value| == Aes.NONCE_LENGTH
  {
    if |c.key| == Aes.KEY_LENGTH then
      match Aes.Encrypt(c.aead, raw, c.key, nonce)
      case Ok(sealed) => Ok(MAGIC + sealed)
      case Err(e) => Err(e)
    else Ok(Scrambled(raw))
  }

  function DecryptPayload(c: Config, stored: Bytes): Result<Bytes, Aes.CryptoError> {
    if MAGIC <= stored then Aes.Decrypt(c.aead, stored[|MAGIC|..], c.key)
    else Ok(Scrambled(stored))
  }

  /** The format on disk: with a proper key the header "VQF_AESGCM_V1" and a newline, the nonce and the
      sealed payload, and otherwise the payload alone, scrambled byte by byte. */
  lemma FormatOnDisk(c: Config, raw: Bytes, nonce: Option<Bytes>)
    requires nonce.Some? ==> |nonce.value| == Aes.NONCE_LENGTH
    ensures |MAGIC| == 14 && forall i :: 0 <= i < 14 ==> MAGIC[i] as int == "VQF_AESGCM_V1\n"[i] as int
    ensures StoredForm(c, raw, nonce).Ok? <==> (|c.key| == 32 ==> nonce.Some?)
    ensures StoredForm(c, raw, nonce).Ok? ==>
              var stored := StoredForm(c, raw, nonce).value;
              if |c.key| == 32 then stored == MAGIC + nonce.value + c.aead.seal(c.key, nonce.value, raw)
              else |stored| == |raw| && forall i :: 0 <= i < |raw| ==> stored[i] == Xor(raw[i])
  {
    ScrambledAt(raw);
    if |c.key| == 32 && nonce.Some? {
      var sealed := c.aead.seal(c.key, nonce.value, raw);
      assert MAGIC + (nonce.value + sealed) == MAGIC + nonce.value + sealed;
    }
  }

  /** The stored form of `raw` can be told apart: see DecryptsStoredForm. */
  predicate Storable(c: Config, raw: Bytes) {
    |c.key| == Aes.KEY_LENGTH || !(MAGIC <= Scrambled(raw))
  }

  /** What was stored comes back, except on the scrambled path exactly when the scrambled bytes
      happen to start with the header of encrypted files. */
  lemma DecryptsStoredForm(c: Config, raw: Bytes, nonce: Option<Bytes>)
    requires Aes.Sound(c.aead)
    requires nonce.Some? ==> |nonce.value| == Aes.NONCE_LENGTH
    requires StoredForm(c, raw, nonce).Ok?
    ensures DecryptPayload(c, StoredForm(c, raw, nonce).value) == Ok(raw) <==> Storable(c, raw)
  {
    var stored := StoredForm(c, raw, nonce).value;
    if |c.key| == Aes.KEY_LENGTH {
      Aes.EnvelopeRoundTrip(c.aead, raw, c.key, nonce);
      assert stored[|MAGIC|..] == Aes.Encrypt(c.aead, raw, c.key, nonce).value;
    } else {
      ScrambledTwice(raw);
    }
  }

  ghost predicate IsStoredForm(c: Config, raw: Bytes, stored: Bytes) {
    exists nonce: Option<Bytes> ::
      (nonce.Some? ==> |nonce.value| == Aes.NONCE_LENGTH) && StoredForm(c, raw, nonce) == Ok(stored)
  }

  lemma StoredDecrypts(c: Config, raw: Bytes, stored: Bytes)
    requires Aes.Sound(c.aead) && IsStoredForm(c, raw, stored)
    ensures DecryptPayload(c, stored) == Ok(raw) <==> Storable(c, raw)
  {
    var nonce: Option<Bytes> :|
      (nonce.Some? ==> |nonce.value| == Aes.NONCE_LENGTH) && StoredForm(c, raw, nonce) == Ok(stored);
    DecryptsStoredForm(c, raw, nonce);
  }

  // ---- The operations, as functions of the state ----

  /** One call of QuarantineFile: its input, the ID, clock and nonce it draws, the time stamp the
      file gets, and what fails. `leftover` is what a failed write leaves of the file. */
  datatype Incoming = Incoming(id: string, raw: Bytes, virus: string, days: int, now: int, modified: int,
                               nonce: Option<Bytes>, writes: bool, leftover: Option<Bytes>, inserts: bool)

  /** IDs are not empty and not reused, and the clock does not go backwards within a call. */
  predicate Legal(s: State, q: Incoming) {
    && q.id != "" && q.id !in s.issued
    && q.now <= q.modified
    && (q.nonce.Some? ==> |q.nonce.value| == Aes.NONCE_LENGTH)
  }

  function RecordFor(c: Config, q: Incoming): Record {
    var days := if q.days <= 0 then DEFAULT_DAYS else q.days;
    Record(|q.raw|, c.sha(q.raw), q.virus, Quarantined, q.now, q.now + days * DAY)
  }

  function Quarantine(c: Config, s: State, q: Incoming): (State, Option<Record>)
    requires Legal(s, q)
  {
    var stored := StoredForm(c, q.raw, q.nonce);
    var t := s.(issued := s.issued + {q.id});
    if c.limit > 0 && |q.raw| > c.limit then (s, None)
    else if stored.Err? then (t, None)
    else if !q.writes then
      (if q.leftover.Some? then t.(files := s.files[q.id := File(q.leftover.value, q.modified)]) else t, None)
    else
      var t := t.(files := s.files[q.id := File(stored.value, q.modified)]);
      if !q.inserts then (t, None)
      else (t.(records := s.records[q.id := RecordFor(c, q)]), Some(RecordFor(c, q)))
  }

  /** The record of a payload, in plain figures: it lives for the days asked for, or for seven. */
  predicate IsRecordOf(c: Config, rec: Record, raw: Bytes, virus: string, now: int, days: int) {
    && rec.size == |raw| && rec.sha == c.sha(raw) && rec.virus == virus && rec.status == Quarantined
    && rec.created == now && rec.expires == now + (if days <= 0 then 7 else days) * 86_400_000_000_000
  }

  /** What a call of QuarantineFile needs to make a record. */
  predicate Accepts(c: Config, q: Incoming) {
    && (c.limit <= 0 || |q.raw| <= c.limit)
    && (|c.key| == Aes.KEY_LENGTH ==> q.nonce.Some?)
    && q.writes && q.inserts
  }

  /** In particular, of payloads that meet no fault the vault takes exactly those up to its limit. */
  lemma QuarantineAccepts(c: Config, s: State, q: Incoming)
    requires Legal(s, q)
    ensures Quarantine(c, s, q).1.Some? <==> Accepts(c, q)
    ensures Quarantine(c, s, q).1.Some? ==>
              var t := Quarantine(c, s, q).0;
              && q.id in t.records && q.id in t.files
              && IsRecordOf(c, t.records[q.id], q.raw, q.virus, q.now, q.days)
    ensures Quarantine(c, s, q).1.None? ==> Quarantine(c, s, q).0.records == s.records
  {
    assert StoredForm(c, q.raw, q.nonce).Ok? <==> (|c.key| == Aes.KEY_LENGTH ==> q.nonce.Some?);
  }

  datatype VaultError = NotFound | WrongStatus | Unreadable | Undecryptable | DatabaseError

  /** RestoreQuarantineRecord: one UPDATE, then perhaps one INSERT; each may fail. */
  function RestoreRecord(s: State, id: string, whitelist: bool, updates: bool, lists: bool)
    : (State, Option<VaultError>)
  {
    if id !in s.records then (s, Some(NotFound))
    else if !updates then (s, Some(DatabaseError))
    else
      var rec := s.records[id];
      var t := s.(records := s.records[id := rec.(status := Restored)]);
      if !whitelist || rec.sha == "" then (t, None)
      else if !lists then (t, Some(DatabaseError))
      else (t.(whitelist := s.whitelist + {rec.sha}), None)
  }

  /** Which database calls of a restoration get an answer: the first look at the record, the update, the
      listing of the digest, and the last look at the record. */
  datatype DbAnswers = DbAnswers(looks: bool, updates: bool, lists: bool, rereads: bool)

  /** RestoreFile up to the update: it changes nothing. */
  function CheckRestore(c: Config, s: State, id: string, looks: bool): Result<Bytes, VaultError> {
    if !looks || id !in s.records then Err(NotFound)
    else if s.records[id].status != Quarantined then Err(WrongStatus)
    else if id !in s.files then Err(Unreadable)
    else
      match DecryptPayload(c, s.files[id].bytes)
      case Ok(plain) => Ok(plain)
      case Err(_) => Err(Undecryptable)
  }

  /** The rest of RestoreFile, with the content that was read before. */
  function FinishRestore(s: State, id: string, plain: Bytes, whitelist: bool, db: DbAnswers)
    : (State, Result<Bytes, VaultError>)
  {
    match RestoreRecord(s, id, whitelist, db.updates, db.lists)
    case (t, None) => (t, if db.rereads then Ok(plain) else Err(DatabaseError))
    case (t, Some(e)) => (t, Err(e))
  }

  function RestoreFile(c: Config, s: State, id: string, whitelist: bool, db: DbAnswers)
    : (State, Result<Bytes, VaultError>)
  {
    match CheckRestore(c, s, id, db.looks)
    case Ok(plain) => FinishRestore(s, id, plain, whitelist, db)
    case Err(e) => (s, Err(e))
  }

  /** handleQuarantineRestore: no look at the status, nor at the file. */
  function ApiRestoreRecord(s: State, id: string, whitelist: bool, db: DbAnswers): (State, Option<VaultError>) {
    if !db.looks then (s, Some(NotFound)) else RestoreRecord(s, id, whitelist, db.updates, db.lists)
  }

  function DownloadFile(c: Config, s: State, id: string): Result<Bytes, VaultError> {
    if id !in s.records then Err(NotFound)
    else if id !in s.files then Err(Unreadable)
    else
      match DecryptPayload(c, s.files[id].bytes)
      case Ok(plain) => Ok(plain)
      case Err(_) => Err(Undecryptable)
  }

  function DeleteFile(s: State, id: string, removes: bool, deletes: bool): State {
    if id !in s.records then s
    else s.(files := if removes then s.files - {id} else s.files,
            records := if deletes then s.records - {id} else s.records)
  }

  predicate Purgeable(f: File, now: int) {
    now - f.modified > 7 * DAY
  }

  /** `stuck` are the files whose removal fails. */
  function PurgeExpired(s: State, now: int, stuck: set<string>): State {
    s.(files := map id | id in s.files && (!Purgeable(s.files[id], now) || id in stuck) :: s.files[id])
  }

  // ---- Runs ----

  datatype Op =
    | Isolate(q: Incoming)                                              // QuarantineFile by itself
    | Restore(id: string, whitelist: bool, db: DbAnswers)                 // Vault.RestoreFile
    | ApiRestore(id: string, whitelist: bool, db: DbAnswers)              // handleQuarantineRestore
    | Delete(id: string, removes: bool, deletes: bool)
    | Purge(now: int, stuck: set<string>)
    | Scan(infected: bool, looksUp: bool, q: Incoming)                  // a scan over HTTP or gRPC

  /** What a scan over HTTP or gRPC does to the vault. It asks the whitelist first, and takes a failed
      query for "not listed". */
  function ScanPayload(c: Config, s: State, infected: bool, looksUp: bool, q: Incoming): State
    requires Legal(s, q)
  {
    if looksUp && c.sha(q.raw) in s.whitelist then s
    else if infected then Quarantine(c, s, q).0
    else s
  }

  predicate Enabled(s: State, op: Op) {
    match op
    case Isolate(q) => Legal(s, q)
    case Scan(_, _, q) => Legal(s, q)
    case _ => true
  }

  function Apply(c: Config, s: State, op: Op): State
    requires Enabled(s, op)
  {
    match op
    case Isolate(q) => Quarantine(c, s, q).0
    case Restore(id, w, db) => RestoreFile(c, s, id, w, db).0
    case ApiRestore(id, w, db) => ApiRestoreRecord(s, id, w, db).0
    case Delete(id, r, d) => DeleteFile(s, id, r, d)
    case Purge(now, stuck) => PurgeExpired(s, now, stuck)
    case Scan(infected, looksUp, q) => ScanPayload(c, s, infected, looksUp, q)
  }

  predicate Runs(c: Config, s: State, ops: seq<Op>)
    decreases |ops|
  {
    ops == [] || (Enabled(s, ops[0]) && Runs(c, Apply(c, s, ops[0]), ops[1..]))
  }

  function After(c: Config, s: State, ops: seq<Op>): State
    requires Runs(c, s, ops)
    decreases |ops|
  {
    if ops == [] then s else After(c, Apply(c, s, ops[0]), ops[1..])
  }

  // ---- Files and records agree ----

  /** The digest and the length in the record are those of the content. */
  predicate Describes(c: Config, rec: Record, content: Bytes) {
    c.sha(content) == rec.sha && |content| == rec.size
  }

  predicate FileMatches(c: Config, f: File, rec: Record) {
    var plain := DecryptPayload(c, f.bytes);
    && plain.Ok? && Describes(c, rec, plain.value)
    && rec.created <= f.modified && rec.created < rec.expires
  }

  ghost predicate Agree(c: Config, s: State) {
    && s.files.Keys <= s.issued && s.records.Keys <= s.issued
    && forall id :: id in s.records && id in s.files ==> FileMatches(c, s.files[id], s.records[id])
  }

  /** A call that makes a record keeps files and records in agreement exactly on storable payloads. */
  lemma QuarantineAgrees(c: Config, s: State, q: Incoming)
    requires Aes.Sound(c.aead)
    requires Agree(c, s) && Legal(s, q)
    ensures Agree(c, Quarantine(c, s, q).0) <==> Storable(c, q.raw) || Quarantine(c, s, q).1.None?
  {
    var (t, rec) := Quarantine(c, s, q);
    if StoredForm(c, q.raw, q.nonce).Ok? {
      DecryptsStoredForm(c, q.raw, q.nonce);
    }
    if rec.Some? && !Storable(c, q.raw) {
      assert !FileMatches(c, t.files[q.id], t.records[q.id]);
    }
  }

  predicate AllStorable(c: Config, ops: seq<Op>) {
    forall i :: 0 <= i < |ops| && (ops[i].Isolate? || ops[i].Scan?) ==> Storable(c, ops[i].q.raw)
  }

  lemma OpAgrees(c: Config, s: State, op: Op)
    requires Aes.Sound(c.aead) && Agree(c, s) && Enabled(s, op)
    requires op.Isolate? || op.Scan? ==> Storable(c, op.q.raw)
    ensures Agree(c, Apply(c, s, op))
  {
    match op {
      case Isolate(q) => QuarantineAgrees(c, s, q);
      case Scan(_, _, q) => QuarantineAgrees(c, s, q);
      case _ =>
    }
  }

  /** With storable payloads (all are, with a proper key), every file that has a record decrypts to
      content of the recorded digest and length, after any sequence of operations and failures. */
  lemma {:induction false} RunsAgree(c: Config, s: State, ops: seq<Op>)
    requires Aes.Sound(c.aead) && AllStorable(c, ops)
    requires Agree(c, s) && Runs(c, s, ops)
    ensures Agree(c, After(c, s, ops))
    decreases |ops|
  {
    if ops == [] {
    } else {
      assert forall i :: 0 <= i < |ops[1..]| ==> ops[1..][i] == ops[i + 1];
      OpAgrees(c, s, ops[0]);
      RunsAgree(c, Apply(c, s, ops[0]), ops[1..]);
    }
  }

  // ---- What went in comes out ----

  predicate Intact(c: Config, s: State, id: string, raw: Bytes) {
    id in s.issued && (id in s.files ==> DecryptPayload(c, s.files[id].bytes) == Ok(raw))
  }

  lemma OpKeepsIntact(c: Config, s: State, op: Op, id: string, raw: Bytes)
    requires Intact(c, s, id, raw) && Enabled(s, op)
    ensures Intact(c, Apply(c, s, op), id, raw)
  {
  }

  lemma {:induction false} RunsKeepIntact(c: Config, s: State, ops: seq<Op>, id: string, raw: Bytes)
    requires Intact(c, s, id, raw) && Runs(c, s, ops)
    ensures Intact(c, After(c, s, ops), id, raw)
    decreases |ops|
  {
    if ops == [] {
    } else {
      OpKeepsIntact(c, s, ops[0], id, raw);
      RunsKeepIntact(c, Apply(c, s, ops[0]), ops[1..], id, raw);
    }
  }

  /** A storable payload that was quarantined is what a download, or a restoration that succeeds,
      returns after any further operations, as long as neither its file nor its record was removed. */
  lemma QuarantinedComesBack(c: Config, s: State, q: Incoming, ops: seq<Op>)
    requires Aes.Sound(c.aead) && Storable(c, q.raw)
    requires Legal(s, q) && Quarantine(c, s, q).1.Some? && Runs(c, Quarantine(c, s, q).0, ops)
    ensures var u := After(c, Quarantine(c, s, q).0, ops);
            && (q.id in u.records && q.id in u.files ==> DownloadFile(c, u, q.id) == Ok(q.raw))
            && (forall w, db :: RestoreFile(c, u, q.id, w, db).1.Ok? ==>
                  RestoreFile(c, u, q.id, w, db).1 == Ok(q.raw))
  {
    DecryptsStoredForm(c, q.raw, q.nonce);
    RunsKeepIntact(c, Quarantine(c, s, q).0, ops, q.id, q.raw);
  }

  // ---- How long a file stays ----

  /** The record and the file of an ID are both there. */
  predicate Kept(s: State, id: string) {
    id in s.records && id in s.files
  }

  /** This operation takes one of them away. */
  predicate Takes(s: State, op: Op, id: string) {
    && Kept(s, id)
    && match op
       case Delete(other, removes, deletes) => other == id && (removes || deletes)
       case Purge(now, stuck) => Purgeable(s.files[id], now) && id !in stuck
       case _ => false
  }

  predicate Taken(c: Config, s: State, ops: seq<Op>, id: string)
    requires Runs(c, s, ops)
    decreases |ops|
  {
    ops != [] && (Takes(s, ops[0], id) || Taken(c, Apply(c, s, ops[0]), ops[1..], id))
  }

  lemma OpKeepsAccounted(c: Config, s: State, op: Op)
    requires Enabled(s, op) && Accounted(s)
    ensures Accounted(Apply(c, s, op)) && s.issued <= Apply(c, s, op).issued
  {
  }

  /** An ID that lost one of them does not get it back. */
  lemma OpTakes(c: Config, s: State, op: Op, id: string)
    requires Enabled(s, op) && Accounted(s) && id in s.issued
    ensures Accounted(Apply(c, s, op)) && id in Apply(c, s, op).issued
    ensures Kept(Apply(c, s, op), id) <==> Kept(s, id) && !Takes(s, op, id)
  {
  }

  lemma {:induction false} GoneStaysGone(c: Config, s: State, ops: seq<Op>, id: string)
    requires Runs(c, s, ops) && Accounted(s) && id in s.issued && !Kept(s, id)
    ensures !Kept(After(c, s, ops), id)
    decreases |ops|
  {
    if ops == [] {
    } else {
      OpTakes(c, s, ops[0], id);
      GoneStaysGone(c, Apply(c, s, ops[0]), ops[1..], id);
    }
  }

  /** Through any run a quarantined file stays with its record exactly if no deletion of it and no purge
      that finds it too old comes by. */
  lemma {:induction false} KeptUnlessTaken(c: Config, s: State, ops: seq<Op>, id: string)
    requires Runs(c, s, ops) && Accounted(s) && Kept(s, id)
    ensures Kept(After(c, s, ops), id) <==> !Taken(c, s, ops, id)
    decreases |ops|
  {
    if ops == [] {
    } else {
      var t := Apply(c, s, ops[0]);
      OpTakes(c, s, ops[0], id);
      if Takes(s, ops[0], id) {
        GoneStaysGone(c, t, ops[1..], id);
      } else {
        KeptUnlessTaken(c, t, ops[1..], id);
      }
    }
  }

  // ---- A record can be restored, once ----

  /** This operation gives the record the status of a restored one, be it through the vault or the API. */
  predicate Uses(c: Config, s: State, op: Op, id: string) {
    && id in s.records
    && match op
       case Restore(other, _, db) => other == id && CheckRestore(c, s, id, db.looks).Ok? && db.updates
       case ApiRestore(other, _, db) => other == id && db.looks && db.updates
       case _ => false
  }

  predicate Used(c: Config, s: State, ops: seq<Op>, id: string)
    requires Runs(c, s, ops)
    decreases |ops|
  {
    ops != [] && (Uses(c, s, ops[0], id) || Used(c, Apply(c, s, ops[0]), ops[1..], id))
  }

  /** The record as it was made, but for the status that tells whether it was used. */
  predicate RecordIs(s: State, id: string, rec: Record, used: bool) {
    id in s.issued && (id in s.records ==> s.records[id] == rec.(status := if used then Restored else Quarantined))
  }

  lemma OpUses(c: Config, s: State, op: Op, id: string, rec: Record, used: bool)
    requires Enabled(s, op) && RecordIs(s, id, rec, used)
    ensures RecordIs(Apply(c, s, op), id, rec, used || Uses(c, s, op, id))
  {
  }

  lemma {:induction false} RunsUse(c: Config, s: State, ops: seq<Op>, id: string, rec: Record, used: bool)
    requires Runs(c, s, ops) && RecordIs(s, id, rec, used)
    ensures RecordIs(After(c, s, ops), id, rec, used || Used(c, s, ops, id))
    decreases |ops|
  {
    if ops == [] {
    } else {
      OpUses(c, s, ops[0], id, rec, used);
      RunsUse(c, Apply(c, s, ops[0]), ops[1..], id, rec, used || Uses(c, s, ops[0], id));
    }
  }

  /** Every database call of a restoration works that has to. */
  predicate Works(db: DbAnswers, lists: bool) {
    db.looks && db.updates && db.rereads && (lists ==> db.lists)
  }

  lemma RestoreOutcome(c: Config, s: State, id: string, raw: Bytes, w: bool, db: DbAnswers)
    requires Intact(c, s, id, raw)
    ensures RestoreFile(c, s, id, w, db).1.Ok? <==>
            && Kept(s, id) && s.records[id].status == Quarantined && Works(db, w && s.records[id].sha != "")
    ensures RestoreFile(c, s, id, w, db).1.Ok? ==> RestoreFile(c, s, id, w, db).1 == Ok(raw)
  {
  }

  /** What was quarantined can be restored after any run, and its bytes come back, exactly if the database
      calls work, the run has not taken record or file, and it has not restored the record before. */
  lemma RestorableUnlessUsed(c: Config, s: State, q: Incoming, ops: seq<Op>, w: bool, db: DbAnswers)
    requires Aes.Sound(c.aead) && Storable(c, q.raw) && Accounted(s)
    requires Legal(s, q) && Accepts(c, q) && Runs(c, Quarantine(c, s, q).0, ops)
    ensures var t := Quarantine(c, s, q).0;
            var u := After(c, t, ops);
            && (RestoreFile(c, u, q.id, w, db).1 == Ok(q.raw) <==>
                  !Taken(c, t, ops, q.id) && !Used(c, t, ops, q.id) && Works(db, w && c.sha(q.raw) != ""))
            && (!db.looks || q.id !in u.records ==> RestoreFile(c, u, q.id, w, db) == (u, Err(NotFound)))
            && (db.looks && q.id in u.records && Used(c, t, ops, q.id) ==>
                  RestoreFile(c, u, q.id, w, db) == (u, Err(WrongStatus)))
            && (db.looks && q.id in u.records && !Used(c, t, ops, q.id) && q.id !in u.files ==>
                  RestoreFile(c, u, q.id, w, db) == (u, Err(Unreadable)))
            && (q.id in u.records && !Used(c, t, ops, q.id) ==>
                  IsRecordOf(c, u.records[q.id], q.raw, q.virus, q.now, q.days))
  {
    var t := Quarantine(c, s, q).0;
    var u := After(c, t, ops);
    QuarantineAccepts(c, s, q);
    DecryptsStoredForm(c, q.raw, q.nonce);
    RunsKeepIntact(c, t, ops, q.id, q.raw);
    KeptUnlessTaken(c, t, ops, q.id);
    RunsUse(c, t, ops, q.id, t.records[q.id], false);
    RestoreOutcome(c, u, q.id, q.raw, w, db);
  }

  predicate RestoresNow(c: Config, s: State, op: Op, id: string) {
    op.Restore? && op.id == id && RestoreFile(c, s, id, op.whitelist, op.db).1.Ok?
  }

  function Restores(c: Config, s: State, ops: seq<Op>, id: string): nat
    requires Runs(c, s, ops)
    decreases |ops|
  {
    if ops == [] then 0
    else
      (if RestoresNow(c, s, ops[0], id) then 1 else 0) + Restores(c, Apply(c, s, ops[0]), ops[1..], id)
  }

  /** The record of `id` is waiting for its restoration, or may still be made. */
  predicate Restorable(s: State, id: string) {
    if id in s.records then s.records[id].status == Quarantined else id !in s.issued
  }

  lemma RestoreUses(c: Config, s: State, op: Op, id: string)
    requires Enabled(s, op) && s.records.Keys <= s.issued
    ensures var t := Apply(c, s, op);
            && t.records.Keys <= t.issued && (Restorable(t, id) ==> Restorable(s, id))
            && (RestoresNow(c, s, op, id) ==> Restorable(s, id) && !Restorable(t, id))
  {
  }

  lemma {:induction false} RestoredAtMostOnce(c: Config, s: State, ops: seq<Op>, id: string)
    requires Runs(c, s, ops) && s.records.Keys <= s.issued
    ensures Restores(c, s, ops, id) <= if Restorable(s, id) then 1 else 0
    decreases |ops|
  {
    if ops == [] {
    } else {
      RestoreUses(c, s, ops[0], id);
      RestoredAtMostOnce(c, Apply(c, s, ops[0]), ops[1..], id);
    }
  }

  lemma {:induction false} RunsSplit(c: Config, s: State, a: seq<Op>, b: seq<Op>, id: string)
    requires Runs(c, s, a + b)
    ensures Runs(c, s, a) && Runs(c, After(c, s, a), b)
    ensures Restores(c, s, a + b, id) == Restores(c, s, a, id) + Restores(c, After(c, s, a), b, id)
    decreases |a|
  {
    if a == [] {
      assert a + b == b;
    } else {
      assert (a + b)[0] == a[0] && (a + b)[1..] == a[1..] + b;
      RunsSplit(c, Apply(c, s, a[0]), a[1..], b, id);
    }
  }

  /** A run in which such a call is made on what is still there, and was not restored before, restores it
      exactly once, whatever comes after. */
  lemma RestoredExactlyOnce(c: Config, s: State, q: Incoming, pre: seq<Op>, w: bool, db: DbAnswers, post: seq<Op>)
    requires Aes.Sound(c.aead) && Storable(c, q.raw) && Accounted(s) && Works(db, true)
    requires Legal(s, q) && Accepts(c, q) && Runs(c, Quarantine(c, s, q).0, pre + ([Restore(q.id, w, db)] + post))
    requires Runs(c, Quarantine(c, s, q).0, pre)
    requires !Taken(c, Quarantine(c, s, q).0, pre, q.id) && !Used(c, Quarantine(c, s, q).0, pre, q.id)
    ensures Restores(c, Quarantine(c, s, q).0, pre + ([Restore(q.id, w, db)] + post), q.id) == 1
  {
    var t := Quarantine(c, s, q).0;
    RunsSplit(c, t, pre, [Restore(q.id, w, db)] + post, q.id);
    RestorableUnlessUsed(c, s, q, pre, w, db);
    assert ([Restore(q.id, w, db)] + post)[0] == Restore(q.id, w, db);
    RestoredAtMostOnce(c, t, pre + ([Restore(q.id, w, db)] + post), q.id);
  }

  /** Through the HTTP API a restoration of a record succeeds exactly if its database calls do, whatever
      the status of the record and whatever happened before. */
  lemma ApiRestoreSucceeds(s: State, id: string, whitelist: bool, db: DbAnswers)
    requires id in s.records
    ensures ApiRestoreRecord(s, id, whitelist, db).1.None? <==>
            db.looks && db.updates && (whitelist && s.records[id].sha != "" ==> db.lists)
  {
  }

  function ApiRestores(c: Config, s: State, ops: seq<Op>, id: string): nat
    requires Runs(c, s, ops)
    decreases |ops|
  {
    if ops == [] then 0
    else
      var op := ops[0];
      (if op.ApiRestore? && op.id == id && ApiRestoreRecord(s, id, op.whitelist, op.db).1.None? then 1 else 0)
      + ApiRestores(c, Apply(c, s, op), ops[1..], id)
  }

  /** So one record can be restored any number of times through it. */
  lemma {:induction false} ApiRestoresAgain(c: Config, s: State, id: string, n: nat) returns (ops: seq<Op>)
    requires id in s.records
    ensures |ops| == n && Runs(c, s, ops) && ApiRestores(c, s, ops, id) == n
    decreases n
  {
    ops := [];
    if n > 0 {
      var op := ApiRestore(id, false, DbAnswers(true, true, true, true));
      ApiRestoreSucceeds(s, id, false, op.db);
      var rest := ApiRestoresAgain(c, Apply(c, s, op), id, n - 1);
      ops := [op] + rest;
      assert ops[1..] == rest;
    }
  }

  // ---- Purging respects the time to live ----

  /** Some run of the purge removes the file before its record expires exactly when the record
      outlives the fixed seven days counted from the time stamp of the file. */
  lemma PurgedEarly(s: State, id: string)
    requires id in s.records && id in s.files
    ensures (exists now :: now < s.records[id].expires && id !in PurgeExpired(s, now, {}).files) <==>
            s.files[id].modified + 7 * DAY + 1 < s.records[id].expires
  {
    var last := s.records[id].expires - 1;
    if Purgeable(s.files[id], last) {
      assert id !in PurgeExpired(s, last, {}).files;
    }
  }

  ghost predicate WithinSevenDays(s: State) {
    && s.files.Keys <= s.issued && s.records.Keys <= s.issued
    && forall id :: id in s.records && id in s.files ==> s.records[id].expires <= s.files[id].modified + 7 * DAY
  }

  predicate AsksSevenDays(ops: seq<Op>) {
    forall i :: 0 <= i < |ops| && (ops[i].Isolate? || ops[i].Scan?) ==> ops[i].q.days <= 7
  }

  predicate KeepsUnexpired(s: State, now: int, stuck: set<string>) {
    forall id :: id in s.files && id in s.records && now < s.records[id].expires ==>
      id in PurgeExpired(s, now, stuck).files
  }

  lemma OpKeepsSevenDays(c: Config, s: State, op: Op)
    requires Enabled(s, op) && WithinSevenDays(s)
    requires op.Isolate? || op.Scan? ==> op.q.days <= 7
    ensures WithinSevenDays(Apply(c, s, op))
  {
  }

  /** With a retention of at most seven days throughout, no purge after any run of operations takes
      the file of a record that has not expired. */
  lemma {:induction false} PurgeKeepsUnexpired(c: Config, s: State, ops: seq<Op>, now: int, stuck: set<string>)
    requires Runs(c, s, ops) && AsksSevenDays(ops) && WithinSevenDays(s)
    ensures KeepsUnexpired(After(c, s, ops), now, stuck)
    decreases |ops|
  {
    if ops == [] {
    } else {
      assert forall i :: 0 <= i < |ops[1..]| ==> ops[1..][i] == ops[i + 1];
      assert ops[0].Isolate? || ops[0].Scan? ==> ops[0].q.days <= 7;
      OpKeepsSevenDays(c, s, ops[0]);
      PurgeKeepsUnexpired(c, Apply(c, s, ops[0]), ops[1..], now, stuck);
    }
  }

  // ---- The whitelist ----

  /** This operation lists the digest: a restoration that asks for it, of a record with this digest, and
      whose database calls get that far. */
  predicate Lists(c: Config, s: State, op: Op, sha: string) {
    && (op.Restore? || op.ApiRestore?) && op.whitelist && op.db.lists
    && Uses(c, s, op, op.id) && s.records[op.id].sha == sha && sha != ""
  }

  predicate Listed(c: Config, s: State, ops: seq<Op>, sha: string)
    requires Runs(c, s, ops)
    decreases |ops|
  {
    ops != [] && (Lists(c, s, ops[0], sha) || Listed(c, Apply(c, s, ops[0]), ops[1..], sha))
  }

  lemma OpLists(c: Config, s: State, op: Op, sha: string)
    requires Enabled(s, op)
    ensures sha in Apply(c, s, op).whitelist <==> sha in s.whitelist || Lists(c, s, op, sha)
  {
  }

  /** A digest gets on the whitelist by such restorations and in no other way, and none gets off it. */
  lemma {:induction false} ListedByRestorations(c: Config, s: State, ops: seq<Op>, sha: string)
    requires Runs(c, s, ops)
    ensures sha in After(c, s, ops).whitelist <==> sha in s.whitelist || Listed(c, s, ops, sha)
    decreases |ops|
  {
    if ops == [] {
    } else {
      OpLists(c, s, ops[0], sha);
      ListedByRestorations(c, Apply(c, s, ops[0]), ops[1..], sha);
    }
  }

  /** Every scan over HTTP or gRPC gets an answer from the whitelist. */
  predicate Asks(ops: seq<Op>) {
    forall i :: 0 <= i < |ops| && ops[i].Scan? ==> ops[i].looksUp
  }

  /** The records that HTTP and gRPC scans of payloads with digest `sha` make in a run. */
  function RecordsMade(c: Config, s: State, ops: seq<Op>, sha: string): set<string>
    requires Runs(c, s, ops)
    decreases |ops|
  {
    if ops == [] then {}
    else
      var t := Apply(c, s, ops[0]);
      (if ops[0].Scan? && c.sha(ops[0].q.raw) == sha
       then t.records.Keys - s.records.Keys else {})
      + RecordsMade(c, t, ops[1..], sha)
  }

  /** Once a digest is listed, no later HTTP or gRPC scan of it makes a record. */
  lemma {:induction false} WhitelistedStaysOut(c: Config, s: State, ops: seq<Op>, sha: string)
    requires Runs(c, s, ops) && Asks(ops) && sha in s.whitelist
    ensures RecordsMade(c, s, ops, sha) == {} && sha in After(c, s, ops).whitelist
    decreases |ops|
  {
    if ops == [] {
    } else {
      assert forall i :: 0 <= i < |ops[1..]| ==> ops[1..][i] == ops[i + 1];
      assert ops[0].Scan? ==> ops[0].looksUp;
      WhitelistedStaysOut(c, Apply(c, s, ops[0]), ops[1..], sha);
    }
  }

  // ---- The vault as the object the service uses ----

  class Store {
    const cfg: Config
    var files: map<string, File>
    var records: map<string, Record>
    var whitelist: set<string>
    ghost var issued: set<string>

    ghost function View(): State reads this {
      State(files, records, whitelist, issued)
    }

    constructor (cfg: Config)
      ensures this.cfg == cfg && View() == State(map[], map[], {}, {})
    {
      this.cfg := cfg;
      files, records, whitelist, issued := map[], map[], {}, {};
    }

    /** io.ReadAll, behind io.LimitReader when there is a limit: one byte more than the limit is
        enough to tell an oversized payload. */
    method ReadPayload(r: Source<Byte>) returns (raw: Bytes, ok: bool)
      requires r.Valid()
      modifies r
      ensures r.Valid()
      ensures cfg.limit > 0 ==> |raw| <= cfg.limit + 1
      ensures ok ==> raw <= old(r.Rest())
      ensures ok ==> |raw| == |old(r.Rest())| || (cfg.limit > 0 && |raw| == cfg.limit + 1)
      ensures old(r.Reliable()) ==> ok
    {
      raw := [];
      while cfg.limit <= 0 || |raw| < cfg.limit + 1
        invariant r.Valid() && old(r.pos) <= r.pos
        invariant raw == r.content[old(r.pos)..r.pos]
        invariant cfg.limit > 0 ==> |raw| <= cfg.limit + 1
        invariant old(r.Reliable()) ==> r.Reliable()
        decreases r.Effort()
      {
        var size: nat :| size > 0;
        if cfg.limit > 0 {
          size := Min(size, cfg.limit + 1 - |raw|);
        }
        ghost var before := r.pos;
        var data, err := r.Read(size);
        assert r.content[old(r.pos)..r.pos] == r.content[old(r.pos)..before] + data;
        raw := raw + data;
        if err != NoError {
          return raw, err == Eof;
        }
      }
      ok := true;
    }

    /** Encryption with a proper key, scrambling without. */
    method Protect(raw: Bytes, nonce: Option<Bytes>) returns (stored: Result<Bytes, Aes.CryptoError>)
      requires nonce.Some? ==> |nonce.value| == Aes.NONCE_LENGTH
      ensures stored == StoredForm(cfg, raw, nonce)
    {
      if |cfg.key| == Aes.KEY_LENGTH {
        var sealed := Aes.Encrypt(cfg.aead, raw, cfg.key, nonce);
        return if sealed.Ok? then Ok(MAGIC + sealed.value) else sealed;
      }
      var buffer := new Byte[|raw|](i requires 0 <= i < |raw| => raw[i]);
      assert buffer[..] == raw;
      var scrambled := ScrambleBytes(buffer);
      return Ok(scrambled[..]);
    }

    /** The whole call, on whatever reader: the outcome is that of `Quarantine` on the whole input,
        although an oversized input is not read to its end. A failing reader changes nothing. */
    method QuarantineFile(r: Source<Byte>, ghost q: Incoming, id: string, virus: string, days: int,
                          now: int, modified: int, nonce: Option<Bytes>, writes: bool,
                          leftover: Option<Bytes>, inserts: bool)
      returns (rec: Option<Record>)
      requires r.Valid() && Legal(View(), q)
      requires q == Incoming(id, r.Rest(), virus, days, now, modified, nonce, writes, leftover, inserts)
      modifies this, r
      ensures r.Valid()
      ensures (View(), rec) == Quarantine(cfg, old(View()), q) || (View() == old(View()) && rec == None)
      ensures old(r.Reliable()) ==> (View(), rec) == Quarantine(cfg, old(View()), q)
      ensures old(r.Reliable()) ==> (rec.Some? <==> Accepts(cfg, q))
      ensures rec.Some? ==> id in records && IsRecordOf(cfg, records[id], old(r.Rest()), virus, now, days)
    {
      QuarantineAccepts(cfg, View(), q);
      var days := if days <= 0 then DEFAULT_DAYS else days;
      var raw, ok := ReadPayload(r);
      if !ok || (cfg.limit > 0 && |raw| > cfg.limit) {
        return None;
      }
      assert raw == q.raw;
      issued := issued + {id};
      var stored := Protect(raw, nonce);
      if stored.Err? {
        return None;
      }
      if !writes {
        if leftover.Some? {
          files := files[id := File(leftover.value, modified)];
        }
        return None;
      }
      files := files[id := File(stored.value, modified)];
      if !inserts {
        return None;
      }
      var made := Record(|raw|, cfg.sha(raw), virus, Quarantined, now, now + days * DAY);
      records := records[id := made];
      return Some(made);
    }

    method RestoreQuarantineRecord(id: string, list: bool, updates: bool, lists: bool)
      returns (error: Option<VaultError>)
      modifies this
      ensures (View(), error) == RestoreRecord(old(View()), id, list, updates, lists)
    {
      if id !in records {
        return Some(NotFound);
      }
      if !updates {
        return Some(DatabaseError);
      }
      var rec := records[id];
      records := records[id := rec.(status := Restored)];
      if list && rec.sha != "" {
        if !lists {
          return Some(DatabaseError);
        }
        whitelist := whitelist + {rec.sha};
      }
      return None;
    }

    method Restore(id: string, list: bool, db: DbAnswers) returns (res: Result<Bytes, VaultError>)
      modifies this
      ensures (View(), res) == RestoreFile(cfg, old(View()), id, list, db)
      ensures Agree(cfg, old(View())) ==> Agree(cfg, View())
      ensures Agree(cfg, old(View())) && res.Ok? ==> id in records && Describes(cfg, records[id], res.value)
      ensures res.Ok? ==> id in records && records[id].status == Restored
      ensures res.Ok? && list && records[id].sha != "" ==> records[id].sha in whitelist
    {
      if !db.looks || id !in records {
        return Err(NotFound);
      }
      if records[id].status != Quarantined {
        return Err(WrongStatus);
      }
      if id !in files {
        return Err(Unreadable);
      }
      var plain := DecryptPayload(cfg, files[id].bytes);
      if plain.Err? {
        return Err(Undecryptable);
      }
      var error := RestoreQuarantineRecord(id, list, db.updates, db.lists);
      if error.Some? {
        return Err(error.value);
      }
      return if db.rereads then Ok(plain.value) else Err(DatabaseError);
    }

    method ApiRestore(id: string, list: bool, db: DbAnswers) returns (error: Option<VaultError>)
      modifies this
      ensures (View(), error) == ApiRestoreRecord(old(View()), id, list, db)
      ensures Agree(cfg, old(View())) ==> Agree(cfg, View())
      ensures error.None? ==> id in records && records[id].status == Restored
    {
      if !db.looks || id !in records {
        return Some(NotFound);
      }
      error := RestoreQuarantineRecord(id, list, db.updates, db.lists);
    }

    method Download(id: string) returns (res: Result<Bytes, VaultError>)
      ensures res == DownloadFile(cfg, View(), id)
      ensures Agree(cfg, View()) && res.Ok? ==> id in records && Describes(cfg, records[id], res.value)
    {
      if id !in records {
        return Err(NotFound);
      }
      if id !in files {
        return Err(Unreadable);
      }
      var plain := DecryptPayload(cfg, files[id].bytes);
      return if plain.Ok? then Ok(plain.value) else Err(Undecryptable);
    }

    method Delete(id: string, removes: bool, deletes: bool) returns (ok: bool)
      modifies this
      ensures View() == DeleteFile(old(View()), id, removes, deletes)
      ensures ok <==> id in old(records) && deletes
      ensures forall j :: j in records <==> j in old(records) && !(j == id && deletes)
      ensures forall j :: j in files <==> j in old(files) && !(j == id && removes && id in old(records))
      ensures (forall j :: j in records ==> records[j] == old(records)[j])
              && (forall j :: j in files ==> files[j] == old(files)[j])
      ensures Agree(cfg, old(View())) ==> Agree(cfg, View())
    {
      if id !in records {
        return false;
      }
      if removes {
        files := files - {id};
      }
      if deletes {
        records := records - {id};
      }
      return deletes;
    }

    method Purge(now: int, stuck: set<string>) returns (purged: nat)
      modifies this
      ensures View() == PurgeExpired(old(View()), now, stuck)
      ensures purged == |old(files)| - |files|
      ensures forall id :: id in files <==>
                id in old(files) && (now - old(files)[id].modified <= 7 * 86_400_000_000_000 || id in stuck)
      ensures (forall id :: id in files ==> files[id] == old(files)[id]) && records == old(records)
      ensures Agree(cfg, old(View())) ==> Agree(cfg, View())
    {
      var entries := files.Keys;
      purged := 0;
      while entries != {}
        invariant entries <= files.Keys <= old(files).Keys
        invariant forall id :: id in files ==> files[id] == old(files)[id]
        invariant forall id :: id in old(files) && id !in entries ==>
                    (id in files <==> !Purgeable(old(files)[id], now) || id in stuck)
        invariant View() == old(View()).(files := files)
        invariant purged == |old(files)| - |files|
        decreases entries
      {
        var id :| id in entries;
        entries := entries - {id};
        if Purgeable(files[id], now) && id !in stuck {
          files := files - {id};
          purged := purged + 1;
        }
      }
    }
  }
}
