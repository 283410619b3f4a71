/** The synchronous scan paths: internal/grpcserver/server.go (ScanStream) and the scan handlers of
    internal/api/server.go (handleScanFile, handleScanURL). */
module ScanService {
  import opened Basics
  import opened Readers
  import Aes
  import Clamd
  import Hex
  import Vault
  import opened SafeFetch

  // ---- Reassembly of a client stream ----

  datatype Metadata = Metadata(fileName: string, consumer: string, expectedSha: string)

  /** What Recv yields before the end of the stream. */
  datatype Message = Meta(meta: Metadata) | Chunk(data: Bytes) | Broken

  datatype Upload = Upload(payload: Bytes, meta: Option<Metadata>)

  /** Status codes of the gRPC call, and the answers of the HTTP handler where they differ. */
  datatype Code = Internal | ResourceExhausted | InvalidArgument | Unavailable | DownloadFailed

  function Payload(stream: seq<Message>): Bytes {
    if stream == [] then []
    else (if stream[0].Chunk? then stream[0].data else []) + Payload(stream[1..])
  }

  function LastMeta(stream: seq<Message>): Option<Metadata> {
    if stream == [] then None
    else
      var last := stream[|stream| - 1];
      if last.Meta? then Some(last.meta) else LastMeta(stream[..|stream| - 1])
  }

  /** The messages before the connection breaks. */
  function Intact(stream: seq<Message>): seq<Message> {
    if stream == [] || stream[0].Broken? then [] else [stream[0]] + Intact(stream[1..])
  }

  lemma {:induction false} PayloadAppend(stream: seq<Message>, m: Message)
    ensures Payload(stream + [m]) == Payload(stream) + (if m.Chunk? then m.data else [])
  {
    if stream == [] {
      assert [m][1..] == [];
    } else {
      assert (stream + [m])[1..] == stream[1..] + [m];
      PayloadAppend(stream[1..], m);
    }
  }

  lemma {:induction false} IntactPrefix(stream: seq<Message>, n: nat)
    requires n <= |stream| && forall i :: 0 <= i < n ==> !stream[i].Broken?
    ensures Intact(stream) == stream[..n] + Intact(stream[n..])
  {
    if n == 0 {
      assert stream[0..] == stream;
    } else {
      IntactPrefix(stream[1..], n - 1);
      assert stream[1..][n - 1..] == stream[n..];
      assert stream[..n] == [stream[0]] + stream[1..][..n - 1];
    }
  }

  lemma {:induction false} PayloadMonotone(a: seq<Message>, b: seq<Message>)
    ensures Payload(a) <= Payload(a + b)
  {
    if a == [] {
    } else {
      assert (a + b)[1..] == a[1..] + b;
      PayloadMonotone(a[1..], b);
    }
  }

  function ChunksOf(pieces: seq<Bytes>): seq<Message> {
    seq(|pieces|, i requires 0 <= i < |pieces| => Chunk(pieces[i]))
  }

  /** However an upload is cut into chunks, the payload is the upload; metadata do not count. */
  lemma {:induction false} PiecesMakePayload(pieces: seq<Bytes>)
    ensures Payload(ChunksOf(pieces)) == Concat(pieces)
  {
    if pieces != [] {
      assert ChunksOf(pieces)[1..] == ChunksOf(pieces[1..]);
      PiecesMakePayload(pieces[1..]);
    }
  }

  lemma {:induction false} MetaCarriesNoPayload(a: seq<Message>, m: Metadata, b: seq<Message>)
    ensures Payload(a + [Meta(m)] + b) == Payload(a + b)
    ensures LastMeta(a + [Meta(m)]) == Some(m)
  {
    if a == [] {
      assert [Meta(m)] + b == [] + [Meta(m)] + b && ([Meta(m)] + b)[1..] == b && a + b == b;
    } else {
      assert (a + [Meta(m)] + b)[1..] == a[1..] + [Meta(m)] + b && (a + b)[1..] == a[1..] + b;
      MetaCarriesNoPayload(a[1..], m, b);
    }
  }

  /** The receive loop accepts exactly the unbroken streams of at most `maxBytes` bytes, and yields
      their chunks in order and their last metadata. A stream that is both too long and broken is
      refused for whichever comes first. */
  method Reassemble(stream: seq<Message>, maxBytes: nat) returns (r: Result<Upload, Code>)
    ensures r == if |Payload(Intact(stream))| > maxBytes then Err(ResourceExhausted)
                 else if |Intact(stream)| < |stream| then Err(Internal)
                 else Ok(Upload(Payload(stream), LastMeta(stream)))
  {
    var buffer, total, meta := [], 0, None;
    for i := 0 to |stream|
      invariant forall k :: 0 <= k < i ==> !stream[k].Broken?
      invariant buffer == Payload(stream[..i]) && total == |buffer| <= maxBytes
      invariant meta == LastMeta(stream[..i])
    {
      IntactPrefix(stream, i);
      assert stream[..i + 1] == stream[..i] + [stream[i]];
      PayloadAppend(stream[..i], stream[i]);
      match stream[i] {
        case Broken =>
          assert stream[i..][0].Broken? && Intact(stream) == stream[..i] + [] == stream[..i];
          return Err(Internal);
        case Meta(m) => meta := Some(m);
        case Chunk(data) =>
          if |data| > 0 {
            total := total + |data|;
            if total > maxBytes {
              IntactPrefix(stream, i + 1);
              PayloadMonotone(stream[..i + 1], Intact(stream[i + 1..]));
              return Err(ResourceExhausted);
            }
            buffer := buffer + data;
          }
      }
    }
    IntactPrefix(stream, |stream|);
    assert stream[..|stream|] == stream && stream[|stream|..] == [];
    assert Intact(stream) == stream + [] == stream;
    return Ok(Upload(buffer, meta));
  }

  // ---- From payload to verdict ----

  datatype AuditRow = AuditRow(fileName: string, consumer: string, size: nat, sha: string, verdict: Clamd.Verdict,
                               virus: string, quarantineId: string)

  datatype Judgement =
    | Whitelisted
    | EngineUnavailable
    | Judged(verdict: Clamd.Verdict, virus: string, quarantineId: string)

  /** What is drawn or fails on the way: see Vault.Incoming. */
  datatype Draw = Draw(id: string, days: int, now: int, modified: int, nonce: Option<Bytes>, writes: bool,
                       leftover: Option<Bytes>, inserts: bool)

  function IncomingOf(payload: Bytes, virus: string, d: Draw): Vault.Incoming {
    Vault.Incoming(d.id, payload, virus, d.days, d.now, d.modified, d.nonce, d.writes, d.leftover, d.inserts)
  }

  /** How the exchange with the daemon goes: see Clamd.Undisturbed. */
  datatype Exchange = Exchange(acts: seq<Act>, patience: nat, room: nat, replyActs: seq<Act>)

  predicate Undisturbed(size: nat, x: Exchange) {
    Clamd.Undisturbed(size, x.acts, x.patience, x.room, x.replyActs)
  }

  predicate CanDraw(s: Vault.State, d: Draw) {
    Vault.Legal(s, IncomingOf([], "", d))
  }

  /** What a payload is owed: the judgement and the vault after it. `heard` tells whether the exchange
      with the daemon went through, `looksUp` whether the whitelist answered. */
  function Answer(c: Vault.Config, daemon: Bytes -> string, s: Vault.State, payload: Bytes, looksUp: bool,
                  heard: bool, d: Draw): (Judgement, Vault.State)
    requires CanDraw(s, d)
  {
    var says := Clamd.DaemonSays(daemon, payload);
    if looksUp && c.sha(payload) in s.whitelist then (Whitelisted, s)
    else if !heard || says.error.Some? then (EngineUnavailable, s)
    else if says.result.verdict == Clamd.Clean then (Judged(Clamd.Clean, "", ""), s)
    else
      var (t, rec) := Vault.Quarantine(c, s, IncomingOf(payload, says.result.virusName, d));
      (Judged(says.result.verdict, says.result.virusName, if rec.Some? then d.id else ""), t)
  }

  /** Who gets which answer: the listed ones are waved through, the others get the verdict in the daemon's
      reply, and an error if there is none. */
  lemma AnswerDecides(c: Vault.Config, daemon: Bytes -> string, s: Vault.State, payload: Bytes,
                      looksUp: bool, heard: bool, d: Draw)
    requires CanDraw(s, d)
    ensures var j := Answer(c, daemon, s, payload, looksUp, heard, d).0;
            var listed := looksUp && c.sha(payload) in s.whitelist;
            var reply := daemon(payload);
            && (j == Whitelisted <==> listed)
            && (j.Judged? && j.verdict == Clamd.Clean <==> !listed && heard && Clamd.SaysClean(reply))
            && (j.Judged? && j.verdict == Clamd.Infected <==> !listed && heard && Clamd.SaysInfected(reply))
            && (j == EngineUnavailable <==>
                  !listed && !(heard && (Clamd.SaysClean(reply) || Clamd.SaysInfected(reply))))
  {
    Clamd.ReplyDecides(daemon(payload));
  }

  /** When the daemon names an infection, by a name that its reply can carry, the answer has the name. */
  lemma AnswerNames(c: Vault.Config, daemon: Bytes -> string, s: Vault.State, payload: Bytes,
                    looksUp: bool, d: Draw, name: string, rest: string)
    requires CanDraw(s, d) && Clamd.Reportable(name)
    requires daemon(payload) == Clamd.FoundReply(name) + "\0" + rest
    requires !(looksUp && c.sha(payload) in s.whitelist)
    ensures var j := Answer(c, daemon, s, payload, looksUp, true, d).0;
            j.Judged? && j.verdict == Clamd.Infected && j.virus == name
  {
    Clamd.FoundReplyUnderstood(name, rest);
  }

  lemma IsolationIsRecorded(c: Vault.Config, s: Vault.State, payload: Bytes, virus: string, d: Draw)
    requires CanDraw(s, d) && s.records.Keys <= s.issued
    ensures var (t, rec) := Vault.Quarantine(c, s, IncomingOf(payload, virus, d));
            if rec.Some? then
              && d.id in t.records && d.id in t.files
              && Vault.IsRecordOf(c, t.records[d.id], payload, virus, d.now, d.days)
              && (Aes.Sound(c.aead) ==>
                    (Vault.DecryptPayload(c, t.files[d.id].bytes) == Ok(payload) <==> Vault.Storable(c, payload)))
            else t.records == s.records
  {
    Vault.QuarantineAccepts(c, s, IncomingOf(payload, virus, d));
    if Vault.StoredForm(c, payload, d.nonce).Ok? && Aes.Sound(c.aead) {
      Vault.DecryptsStoredForm(c, payload, d.nonce);
    }
  }

  /** An infected verdict that names a quarantine ID names a record of this very payload, and the file
      kept under the ID is its stored form, which decrypts to it exactly if the payload is storable.
      Without an ID no record was made. */
  lemma InfectedIsIsolated(c: Vault.Config, daemon: Bytes -> string, s: Vault.State, payload: Bytes,
                           looksUp: bool, heard: bool, d: Draw)
    requires CanDraw(s, d) && s.records.Keys <= s.issued
    ensures var (j, t) := Answer(c, daemon, s, payload, looksUp, heard, d);
            && (j.Judged? ==> j.verdict == Clamd.Clean || j.verdict == Clamd.Infected)
            && (if j.Judged? && j.quarantineId != "" then
                  && j.verdict == Clamd.Infected && j.quarantineId in t.records && j.quarantineId in t.files
                  && Vault.IsRecordOf(c, t.records[j.quarantineId], payload, j.virus, d.now, d.days)
                  && (Aes.Sound(c.aead) ==>
                        (Vault.DecryptPayload(c, t.files[j.quarantineId].bytes) == Ok(payload) <==>
                         Vault.Storable(c, payload)))
                else t.records == s.records)
  {
    IsolationIsRecorded(c, s, payload, Clamd.DaemonSays(daemon, payload).result.virusName, d);
  }

  /** An infected payload is isolated exactly if the vault accepts it: the action the answer claims is
      founded then, and an ID tells. */
  lemma InfectedIsAccepted(c: Vault.Config, daemon: Bytes -> string, s: Vault.State, payload: Bytes,
                           looksUp: bool, heard: bool, d: Draw)
    requires CanDraw(s, d)
    ensures var (j, t) := Answer(c, daemon, s, payload, looksUp, heard, d);
            j.Judged? && j.verdict == Clamd.Infected ==>
              (j.quarantineId != "" <==> Vault.Accepts(c, IncomingOf(payload, j.virus, d)))
  {
    Vault.QuarantineAccepts(c, s, IncomingOf(payload, Clamd.DaemonSays(daemon, payload).result.virusName, d));
  }

  /** The scans of the vault's runs are these: what holds of runs of scans holds here. */
  lemma AnswerIsAScan(c: Vault.Config, daemon: Bytes -> string, s: Vault.State, payload: Bytes,
                      looksUp: bool, heard: bool, d: Draw)
    requires CanDraw(s, d)
    ensures var (j, t) := Answer(c, daemon, s, payload, looksUp, heard, d);
            var virus := if j.Judged? then j.virus else "";
            t == Vault.ScanPayload(c, s, j.Judged? && j.verdict == Clamd.Infected, looksUp,
                                   IncomingOf(payload, virus, d))
  {
  }

  function AuditOf(fileName: string, consumer: string, payload: Bytes, sha: string, j: Judgement): seq<AuditRow> {
    if j.Judged? then [AuditRow(fileName, consumer, |payload|, sha, j.verdict, j.virus, j.quarantineId)] else []
  }

  /** A verdict is audited once, with what it is about; nothing else is audited. */
  lemma AuditTells(fileName: string, consumer: string, payload: Bytes, sha: string, j: Judgement)
    ensures var rows := AuditOf(fileName, consumer, payload, sha, j);
            if j.Judged? then
              && |rows| == 1 && rows[0].fileName == fileName && rows[0].consumer == consumer
              && rows[0].size == |payload| && rows[0].sha == sha && rows[0].verdict == j.verdict
              && rows[0].virus == j.virus && rows[0].quarantineId == j.quarantineId
            else rows == []
  {
  }

  function FileNameIn(meta: Option<Metadata>): string {
    if meta.Some? && meta.value.fileName != "" then meta.value.fileName else "stream_file"
  }

  function ConsumerIn(meta: Option<Metadata>): string {
    if meta.Some? && meta.value.consumer != "" then meta.value.consumer else "grpc_client"
  }

  /** The names of the client, where it gives any. */
  lemma NamesGiven(m: Metadata)
    ensures m.fileName != "" ==> FileNameIn(Some(m)) == m.fileName
    ensures m.consumer != "" ==> ConsumerIn(Some(m)) == m.consumer
    ensures m.fileName == "" ==> FileNameIn(Some(m)) == FileNameIn(None) == "stream_file"
    ensures m.consumer == "" ==> ConsumerIn(Some(m)) == ConsumerIn(None) == "grpc_client"
  {
  }

  predicate Mismatch(expected: string, sha: string) {
    expected != "" && !Hex.EqualFold(expected, sha)
  }

  /** The checksum gate, for a digest in hexadecimal: without an expectation nothing is refused, and what
      is expected is refused exactly if it does not spell the bytes of the digest, in whatever letter
      case. */
  ghost predicate Gate(expected: string, sha: string, refused: bool) {
    && (expected == "" ==> !refused)
    && forall digest: Bytes :: sha == Hex.Encode(digest) && expected != "" ==>
         (refused <==> Hex.Decode(expected) != Some(digest))
  }

  lemma GateDecides(expected: string, sha: string)
    ensures Gate(expected, sha, Mismatch(expected, sha))
  {
    forall digest: Bytes | sha == Hex.Encode(digest) && expected != ""
      ensures Mismatch(expected, sha) <==> Hex.Decode(expected) != Some(digest)
    {
      Hex.FoldIsSpelling(expected, digest);
    }
  }

  class Service {
    const store: Vault.Store
    const daemon: Bytes -> string
    var audits: seq<AuditRow>

    constructor (store: Vault.Store, daemon: Bytes -> string)
      ensures this.store == store && this.daemon == daemon && audits == []
    {
      this.store, this.daemon, audits := store, daemon, [];
    }

    /** The common tail of the gRPC and HTTP scans, and all of handleScanFile once it has its payload:
        whitelist, daemon, then an audit row for a clean payload, quarantine and an audit row for an
        infected one. */
    method Judge(payload: Bytes, fileName: string, consumer: string, looksUp: bool, audited: bool, d: Draw, x: Exchange)
      returns (j: Judgement, ghost heard: bool)
      requires CanDraw(store.View(), d)
      modifies this, store
      ensures (j, store.View()) == Answer(store.cfg, daemon, old(store.View()), payload, looksUp, heard, d)
      ensures Undisturbed(|payload|, x) ==> heard
      ensures j.Judged? ==>
                && (j.verdict == Clamd.Clean <==> Clamd.SaysClean(daemon(payload)))
                && (j.verdict == Clamd.Infected <==> Clamd.SaysInfected(daemon(payload)))
      ensures j == EngineUnavailable && Undisturbed(|payload|, x) ==>
                !Clamd.SaysClean(daemon(payload)) && !Clamd.SaysInfected(daemon(payload))
      ensures audits == old(audits) +
                (if audited then AuditOf(fileName, consumer, payload, store.cfg.sha(payload), j) else [])
    {
      heard := true;
      Clamd.ReplyDecides(daemon(payload));
      var sha := store.cfg.sha(payload);
      if looksUp && sha in store.whitelist {
        return Whitelisted, heard;
      }
      var conn := new Clamd.Conn(daemon, x.room);
      var reader := new Source<Byte>(payload, x.acts);
      assert reader.Rest() == payload;
      var out, frames := Clamd.ScanStream(conn, reader, x.patience, x.replyActs);
      if out.error.Some? {
        heard := Undisturbed(|payload|, x);
        return EngineUnavailable, heard;
      }
      if out.result.verdict == Clamd.Clean {
        j := Judged(Clamd.Clean, "", "");
      } else {
        var virus := out.result.virusName;
        var again := new Source<Byte>(payload, []);
        assert again.Rest() == payload;
        var rec := store.QuarantineFile(again, IncomingOf(payload, virus, d), d.id, virus, d.days, d.now, d.modified,
                                        d.nonce, d.writes, d.leftover, d.inserts);
        j := Judged(Clamd.Infected, virus, if rec.Some? then d.id else "");
      }
      if audited {
        audits := audits + [AuditRow(fileName, consumer, |payload|, sha, j.verdict, j.virus, j.quarantineId)];
      }
    }

    /** The gRPC call. Its answer depends on the chunks only through their concatenation: for an
        accepted stream it is the answer owed to exactly that payload. */
    method ScanStream(stream: seq<Message>, maxBytes: nat, looksUp: bool, audited: bool, d: Draw, x: Exchange)
      returns (r: Result<Judgement, Code>, ghost heard: bool)
      requires CanDraw(store.View(), d)
      modifies this, store
      ensures var payload := Payload(stream);
              var sha := store.cfg.sha(payload);
              var (j, t) := Answer(store.cfg, daemon, old(store.View()), payload, looksUp, heard, d);
              if |Payload(Intact(stream))| > maxBytes then r == Err(ResourceExhausted)
              else if |Intact(stream)| < |stream| then r == Err(Internal)
              else if LastMeta(stream).Some? && Mismatch(LastMeta(stream).value.expectedSha, sha) then
                r == Err(InvalidArgument)
              else
                && r == (if j == EngineUnavailable then Err(Unavailable) else Ok(j)) && store.View() == t
                && audits == old(audits) + (if audited then
                     AuditOf(FileNameIn(LastMeta(stream)), ConsumerIn(LastMeta(stream)), payload, sha, j) else [])
      ensures |Payload(Intact(stream))| <= maxBytes && Intact(stream) == stream && LastMeta(stream).Some? ==>
                Gate(LastMeta(stream).value.expectedSha, store.cfg.sha(Payload(stream)), r == Err(InvalidArgument))
      ensures Undisturbed(|Payload(stream)|, x) ==> heard
      ensures r.Err? ==> store.View() == old(store.View()) && audits == old(audits)
    {
      heard := true;
      var up := Reassemble(stream, maxBytes);
      if up.Err? {
        return Err(up.error), heard;
      }
      var fileName, consumer, expected := "stream_file", "grpc_client", "";
      var payload, meta := up.value.payload, up.value.meta;
      if meta.Some? {
        if meta.value.fileName != "" {
          fileName := meta.value.fileName;
        }
        if meta.value.consumer != "" {
          consumer := meta.value.consumer;
        }
        expected := meta.value.expectedSha;
      }
      GateDecides(expected, store.cfg.sha(payload));
      if expected != "" && !Hex.EqualFold(expected, store.cfg.sha(payload)) {
        return Err(InvalidArgument), heard;
      }
      var j;
      j, heard := Judge(payload, fileName, consumer, looksUp, audited, d, x);
      r := if j == EngineUnavailable then Err(Unavailable) else Ok(j);
    }

    /** The URL scan after its fetch. With a body that does not fail, the outcome is fixed by the status
        and the content, but for a body of exactly the maximum: see SafeFetch.BoundedReader. */
    method ScanUrl(status: int, body: BoundedReader, expected: string, fileName: string, consumer: string,
                   looksUp: bool, audited: bool, d: Draw, x: Exchange)
      returns (r: Result<Judgement, Code>, ghost heard: bool)
      requires CanDraw(store.View(), d)
      requires body.Valid() && body.readSoFar == 0 && body.rc.pos == 0 && !body.rc.joined && body.maxBytes > 0
      modifies this, store, body, body.rc
      ensures var payload := body.rc.content;
              var sha := store.cfg.sha(payload);
              var (j, t) := Answer(store.cfg, daemon, old(store.View()), payload, looksUp, heard, d);
              if status < 200 || status >= 300 then r == Err(DownloadFailed)
              else if !old(body.rc.Reliable()) && (r == Err(DownloadFailed) || r == Err(ResourceExhausted)) then true
              else if |payload| > body.maxBytes || (|payload| == body.maxBytes && !body.rc.joined) then
                r == Err(ResourceExhausted)
              else if Mismatch(expected, sha) then r == Err(InvalidArgument)
              else
                && r == (if j == EngineUnavailable then Err(Unavailable) else Ok(j)) && store.View() == t
                && audits == old(audits) + (if audited then AuditOf(fileName, consumer, payload, sha, j) else [])
      ensures 200 <= status < 300 && old(body.rc.Reliable()) && |body.rc.content| < body.maxBytes ==>
                Gate(expected, store.cfg.sha(body.rc.content), r == Err(InvalidArgument))
      ensures Undisturbed(|body.rc.content|, x) ==> heard
      ensures r.Err? ==> store.View() == old(store.View()) && audits == old(audits)
    {
      heard := true;
      if status < 200 || status >= 300 {
        return Err(DownloadFailed), heard;
      }
      var payload, err := body.ReadAll();
      if err != End {
        return Err(if err == TooLarge then ResourceExhausted else DownloadFailed), heard;
      }
      GateDecides(expected, store.cfg.sha(payload));
      if expected != "" && !Hex.EqualFold(expected, store.cfg.sha(payload)) {
        return Err(InvalidArgument), heard;
      }
      var j;
      j, heard := Judge(payload, fileName, consumer, looksUp, audited, d, x);
      r := if j == EngineUnavailable then Err(Unavailable) else Ok(j);
    }
  }
}
