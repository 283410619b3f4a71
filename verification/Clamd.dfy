/** internal/clamd/client.go: the INSTREAM exchange with the daemon and the parsing of its reply. */
module Clamd {
  import opened Basics
  import opened Readers
  import Text

  const CHUNK_SIZE := 64 * 1024
  const WORD_LIMIT := 0x1_0000_0000

  // ---- The wire format ----

  /** A 32-bit big-endian length. */
  function Word(n: nat): Bytes
    requires n < WORD_LIMIT
  {
    var (h1, h2, h3) := (n / 256, n / 256 / 256, n / 256 / 256 / 256);
    [h3 as Byte, (h2 % 256) as Byte, (h1 % 256) as Byte, (n % 256) as Byte]
  }

  function WordValue(b: Bytes): nat
    requires |b| == 4
  {
    ((b[0] as nat * 256 + b[1] as nat) * 256 + b[2] as nat) * 256 + b[3] as nat
  }

  /** Frames that a sender may use: not empty, and with a length that fits the length word. */
  predicate Sendable(frames: seq<Bytes>) {
    forall i :: 0 <= i < |frames| ==> 0 < |frames[i]| < WORD_LIMIT
  }

  function Framed(frames: seq<Bytes>): Bytes
    requires Sendable(frames)
  {
    if frames == [] then [] else Word(|frames[0]|) + frames[0] + Framed(frames[1..])
  }

  /** How the daemon reads a stream: frames up to the first zero length, and what follows it. */
  function Unframe(wire: Bytes): Option<(seq<Bytes>, Bytes)> {
    if |wire| < 4 then None
    else
      var n := WordValue(wire[..4]);
      if n == 0 then Some(([], wire[4..]))
      else if |wire| < 4 + n then None
      else
        match Unframe(wire[4 + n..])
        case None => None
        case Some((frames, rest)) => Some(([wire[4..4 + n]] + frames, rest))
  }

  lemma WordRoundTrip(n: nat)
    requires n < WORD_LIMIT
    ensures WordValue(Word(n)) == n
  {
  }

  lemma WordUnique(b: Bytes)
    requires |b| == 4
    ensures WordValue(b) < WORD_LIMIT && Word(WordValue(b)) == b
  {
    var n := WordValue(b);
    assert n / 256 == (b[0] as nat * 256 + b[1] as nat) * 256 + b[2] as nat;
    assert n / 256 / 256 == b[0] as nat * 256 + b[1] as nat;
    assert n / 256 / 256 / 256 == b[0] as nat;
  }

  lemma UnframeOne(frame: Bytes, tail: Bytes)
    requires 0 < |frame| < WORD_LIMIT && Unframe(tail).Some?
    ensures Unframe(Word(|frame|) + frame + tail) ==
            Some(([frame] + Unframe(tail).value.0, Unframe(tail).value.1))
  {
    var word := Word(|frame|);
    var wire := word + frame + tail;
    WordRoundTrip(|frame|);
    assert wire[..4] == word;
    assert wire[4..4 + |frame|] == frame;
    assert wire[4 + |frame|..] == tail;
  }

  lemma UnframeClosing(rest: Bytes)
    ensures Unframe(Word(0) + rest) == Some(([], rest))
  {
    var wire := Word(0) + rest;
    assert wire[..4] == Word(0) && wire[4..] == rest;
  }

  lemma FramedFirst(frames: seq<Bytes>, tail: Bytes)
    requires Sendable(frames) && frames != []
    ensures Framed(frames) + tail == Word(|frames[0]|) + frames[0] + (Framed(frames[1..]) + tail)
  {
    var head, others := Word(|frames[0]|) + frames[0], Framed(frames[1..]);
    assert (head + others) + tail == head + (others + tail);
  }

  lemma {:induction false} UnframeAppend(frames: seq<Bytes>, tail: Bytes)
    requires Sendable(frames) && Unframe(tail).Some?
    ensures Unframe(Framed(frames) + tail) == Some((frames + Unframe(tail).value.0, Unframe(tail).value.1))
  {
    var (last, rest) := Unframe(tail).value;
    if frames == [] {
      assert Framed(frames) + tail == tail && frames + last == last;
    } else {
      FramedFirst(frames, tail);
      UnframeAppend(frames[1..], tail);
      UnframeOne(frames[0], Framed(frames[1..]) + tail);
      HeadAndTail(frames, last);
    }
  }

  lemma UnframeFramed(frames: seq<Bytes>, rest: Bytes)
    requires Sendable(frames)
    ensures Unframe(Framed(frames) + (Word(0) + rest)) == Some((frames, rest))
  {
    UnframeClosing(rest);
    UnframeAppend(frames, Word(0) + rest);
    assert frames + [] == frames;
  }

  lemma UnframeStep(wire: Bytes)
    requires |wire| >= 4 && |wire| >= 4 + WordValue(wire[..4])
    ensures var n := WordValue(wire[..4]);
            n < WORD_LIMIT && wire == Word(n) + wire[4..4 + n] + wire[4 + n..]
  {
    WordUnique(wire[..4]);
    var n := WordValue(wire[..4]);
    assert wire == wire[..4] + wire[4..4 + n] + wire[4 + n..];
  }

  /** Only one stream of frames reads as the given one: the format is unambiguous. */
  lemma {:induction false} FramedUnframe(wire: Bytes)
    requires Unframe(wire).Some?
    ensures Sendable(Unframe(wire).value.0)
    ensures wire == Framed(Unframe(wire).value.0) + (Word(0) + Unframe(wire).value.1)
    decreases |wire|
  {
    UnframeStep(wire);
    var n := WordValue(wire[..4]);
    if n == 0 {
      assert wire[4..4] == [];
      assert wire == [] + (Word(0) + wire[4..]);
    } else {
      var frame, tail := wire[4..4 + n], wire[4 + n..];
      FramedUnframe(tail);
      var (frames, rest) := Unframe(tail).value;
      FramedCons(frame, frames);
      var closing := Word(0) + rest;
      assert (Word(n) + frame) + (Framed(frames) + closing) == (Word(n) + frame + Framed(frames)) + closing;
    }
  }

  lemma FramedCons(frame: Bytes, frames: seq<Bytes>)
    requires Sendable(frames) && 0 < |frame| < WORD_LIMIT
    ensures Sendable([frame] + frames)
    ensures Framed([frame] + frames) == Word(|frame|) + frame + Framed(frames)
  {
    assert ([frame] + frames)[1..] == frames;
  }

  lemma {:induction false} FramedAppend(frames: seq<Bytes>, last: Bytes)
    requires Sendable(frames) && 0 < |last| < WORD_LIMIT
    ensures Sendable(frames + [last])
    ensures Framed(frames + [last]) == Framed(frames) + Word(|last|) + last
  {
    if frames == [] {
      FramedCons(last, []);
      assert [] + [last] == [last];
    } else {
      FramedAppend(frames[1..], last);
      FramedCons(frames[0], frames[1..] + [last]);
      assert frames + [last] == [frames[0]] + (frames[1..] + [last]);
    }
  }

  // ---- The reply ----

  datatype Verdict = NoVerdict | Clean | Infected | Error

  datatype ScanResult = ScanResult(verdict: Verdict, virusName: string, raw: string)

  datatype ScanError = Unreachable | WriteFailed | Cancelled | PayloadFailed | ReplyFailed
                     | DaemonError | Unrecognized

  /** Go's pair of a result and an error. */
  datatype Outcome = Outcome(result: ScanResult, error: Option<ScanError>)

  function Failed(error: ScanError): Outcome {
    Outcome(ScanResult(NoVerdict, "", ""), Some(error))
  }

  function VirusNameIn(reply: string): string {
    var parts := Text.Split(reply, ':');
    if |parts| >= 2 then Text.TrimSuffix(Text.TrimSpace(parts[1]), " FOUND") else ""
  }

  function ParseScanResponse(raw: string): Outcome {
    var trimmed := Text.TrimSpace(raw);
    if Text.Contains(trimmed, "OK") then Outcome(ScanResult(Clean, "", trimmed), None)
    else if Text.Contains(trimmed, "FOUND") then
      Outcome(ScanResult(Infected, VirusNameIn(trimmed), trimmed), None)
    else if Text.Contains(trimmed, "ERROR") then
      Outcome(ScanResult(Error, "", trimmed), Some(DaemonError))
    else Outcome(ScanResult(NoVerdict, "", trimmed), Some(Unrecognized))
  }

  predicate Ends(c: char) {
    c == '\0' || c == '\n'
  }

  /** The text before the first NUL or newline. */
  function Line(s: string): string {
    if s == [] || Ends(s[0]) then [] else [s[0]] + Line(s[1..])
  }

  lemma {:induction false} LineExtends(s: string, t: string)
    requires forall i :: 0 <= i < |s| ==> !Ends(s[i])
    ensures Line(s + t) == s + Line(t)
  {
    if s == [] {
      assert s + t == t;
    } else {
      assert (s + t)[1..] == s[1..] + t;
      LineExtends(s[1..], t);
    }
  }

  /** Reads up to the first NUL, newline or the end, whatever the pieces the reader delivers. */
  method ReadUntilNull(r: Source<char>) returns (text: string, ok: bool)
    requires r.Valid()
    modifies r
    ensures r.Valid()
    ensures ok ==> text == Line(old(r.Rest()))
    ensures old(r.Reliable()) ==> ok
  {
    text := [];
    ghost var start := r.pos;
    while true
      invariant r.Valid() && start <= r.pos
      invariant text == r.content[start..r.pos]
      invariant forall i :: 0 <= i < |text| ==> !Ends(text[i])
      invariant old(r.Reliable()) ==> r.Reliable()
      decreases r.Effort()
    {
      ghost var before := r.pos;
      var b, err := r.Read(1);
      if |b| > 0 {
        assert r.content[start..] == text + r.content[before..];
        assert r.content[before] == b[0];
        if Ends(b[0]) {
          LineExtends(text, r.content[before..]);
          return text, true;
        }
        text := text + b;
      }
      if err != NoError {
        if err == Eof {
          assert r.content[start..] == text + [];
          LineExtends(text, []);
          return text, true;
        }
        return text, false;
      }
    }
  }

  // ---- The reply that names a virus ----

  function FoundReply(name: string): string {
    "stream: " + name + " FOUND"
  }

  predicate Reportable(name: string) {
    && name != "" && !Text.IsSpace(name[0])
    && (forall c :: c in name ==> c != ':' && !Ends(c))
    && !Text.Contains(name, "OK")
  }

  lemma OkInReply(name: string)
    ensures Text.Contains(FoundReply(name), "OK") <==> Text.Contains(name, "OK")
  {
    var reply := FoundReply(name);
    if Text.Contains(name, "OK") {
      var i := Text.ContainsWitness(name, "OK");
      assert reply[8 + i..8 + i + 2] == name[i..i + 2];
      Text.ContainsAt(reply, "OK", 8 + i);
    }
    if Text.Contains(reply, "OK") {
      var i := Text.ContainsWitness(reply, "OK");
      assert reply[i..i + 2][0] == 'O' && reply[i..i + 2][1] == 'K';
      assert reply[i] == 'O' && reply[i + 1] == 'K';
      assert 8 <= i && i + 2 <= 8 + |name|;
      assert name[i - 8..i - 6] == "OK";
      Text.ContainsAt(name, "OK", i - 8);
    }
  }

  lemma FoundReplyTrimmed(name: string)
    ensures Text.TrimSpace(FoundReply(name)) == FoundReply(name)
    ensures Text.Contains(FoundReply(name), "FOUND")
  {
    var reply := FoundReply(name);
    assert reply[0] == 's' && reply[|reply| - 1] == 'D';
    Text.TrimFixed(reply, Text.IsSpace);
    assert reply[|reply| - 5..] == "FOUND";
    Text.ContainsAt(reply, "FOUND", |reply| - 5);
  }

  lemma SecondPart(text: string)
    requires ':' !in text
    ensures Text.Split("stream:" + text, ':') == ["stream", text]
  {
    assert Text.Join([text], ':') == text;
    assert Text.Join(["stream", text], ':') == "stream:" + text;
    Text.SplitJoin(["stream", text], ':');
  }

  /** Whatever follows "stream: " up to the next colon bounds the name found there. */
  lemma VirusNameBound(tail: string)
    ensures |VirusNameIn("stream:" + tail)| <= Text.IndexOf(tail, ':')
    ensures tail != "" && Text.IsSpace(tail[0]) ==>
              |VirusNameIn("stream:" + tail)| < Text.IndexOf(tail, ':')
    ensures VirusNameIn("stream:" + tail) != "" ==> !Text.IsSpace(VirusNameIn("stream:" + tail)[0])
  {
    var reply, i := "stream:" + tail, Text.IndexOf(tail, ':');
    assert reply == "stream" + [':'] + tail;
    Text.IndexOfAppend("stream", ':', tail);
    assert reply[..6] == "stream" && reply[7..] == tail;
    assert Text.Split(reply, ':') == ["stream"] + Text.Split(tail, ':');
    assert Text.Split(reply, ':')[1] == tail[..i];
    Text.TrimSpaceFacts(tail[..i]);
  }

  lemma MisnamedColon(name: string)
    requires ':' in name
    ensures |VirusNameIn(FoundReply(name))| < |name|
  {
    var k, tail := Text.IndexOf(name, ':'), " " + name + " FOUND";
    assert tail[1 + k] == ':';
    Text.IndexOfFirst(tail, ':', 1 + k);
    assert FoundReply(name) == "stream:" + tail;
    VirusNameBound(tail);
  }

  /** Too short a second part keeps its word: without a name, "FOUND" is taken for one. */
  lemma ShortSecondPart(spaces: string, word: string)
    requires forall i :: 0 <= i < |spaces| ==> spaces[i] == ' '
    requires 0 < |word| < 6 && ':' !in word && !Text.IsSpace(word[0]) && !Text.IsSpace(word[|word| - 1])
    ensures VirusNameIn("stream:" + (spaces + word)) == word
  {
    SecondPart(spaces + word);
    Text.TrimLeftPadded(spaces, word, Text.IsSpace);
  }

  /** A well-formed name comes out of the reply as it went in. */
  lemma FoundReplyNamed(name: string)
    requires name != "" && !Text.IsSpace(name[0]) && ':' !in name
    ensures VirusNameIn(FoundReply(name)) == name
  {
    var body := name + " FOUND";
    assert FoundReply(name) == "stream:" + (" " + body);
    SecondPart(" " + body);
    assert Text.TrimSpace(" " + body) == body by {
      Text.TrimLeftPadded(" ", body, Text.IsSpace);
      assert body[|body| - 1] == 'D';
    }
    Text.TrimSuffixAppend(name, " FOUND");
  }

  lemma MisnamedReply(name: string)
    requires name == "" || Text.IsSpace(name[0]) || ':' in name
    ensures VirusNameIn(FoundReply(name)) != name
  {
    if ':' in name {
      MisnamedColon(name);
    } else if name == "" {
      assert FoundReply(name) == "stream:" + ("  " + "FOUND");
      ShortSecondPart("  ", "FOUND");
    } else {
      assert FoundReply(name) == "stream:" + (" " + name + " FOUND");
      VirusNameBound(" " + name + " FOUND");
    }
  }

  lemma ParseFound(name: string)
    ensures ParseScanResponse(FoundReply(name)) ==
            if Text.Contains(name, "OK") then Outcome(ScanResult(Clean, "", FoundReply(name)), None)
            else Outcome(ScanResult(Infected, VirusNameIn(FoundReply(name)), FoundReply(name)), None)
  {
    OkInReply(name);
    FoundReplyTrimmed(name);
  }

  lemma WholeReply(name: string, rest: string)
    requires forall c :: c in name ==> !Ends(c)
    ensures Line(FoundReply(name) + "\0" + rest) == FoundReply(name)
  {
    var reply := FoundReply(name);
    assert forall i :: 0 <= i < |reply| ==> !Ends(reply[i]);
    LineExtends(reply, "\0" + rest);
    assert reply + "\0" + rest == reply + ("\0" + rest);
    assert Line("\0" + rest) == "" && reply + "" == reply;
  }

  lemma NameBound(text: string)
    requires text <= "stream: " || "stream: " <= text
    ensures |text| >= 8 ==> |VirusNameIn(text)| <= |text| - 8
    ensures |text| <= 8 ==> VirusNameIn(text) == ""
  {
    if |text| >= 7 {
      var tail := text[7..];
      assert text[..7] == "stream:" && text == "stream:" + tail;
      VirusNameBound(tail);
    } else {
      assert ':' !in text;
    }
  }

  lemma CutLine(name: string, rest: string, k: nat)
    requires k < |name| && Ends(name[k]) && forall i :: 0 <= i < k ==> !Ends(name[i])
    ensures Line(FoundReply(name) + rest) == "stream: " + name[..k]
  {
    var head := "stream: " + name[..k];
    var after := name[k..] + " FOUND" + rest;
    assert FoundReply(name) + rest == head + after;
    LineExtends(head, after);
    assert Line(after) == [] && head + [] == head;
  }

  lemma TrimmedHead(part: string)
    ensures var trimmed := Text.TrimSpace("stream: " + part);
            trimmed <= "stream: " + part && (trimmed <= "stream: " || "stream: " <= trimmed)
  {
    var head := "stream: " + part;
    assert head[0] == 's' && Text.TrimLeft(head, Text.IsSpace) == head;
    Text.TrimRightFacts(head, Text.IsSpace);
    assert "stream: " <= head;
  }

  lemma NameWithin(part: string)
    ensures |ParseScanResponse("stream: " + part).result.virusName| <= |part|
  {
    TrimmedHead(part);
    NameBound(Text.TrimSpace("stream: " + part));
  }

  /** A name with a NUL or newline inside is cut there, so less than the name is reported. */
  lemma CutReply(name: string, rest: string)
    requires exists c :: c in name && Ends(c)
    ensures |ParseScanResponse(Line(FoundReply(name) + rest)).result.virusName| < |name|
  {
    var k := FirstEnd(name);
    CutLine(name, rest, k);
    NameWithin(name[..k]);
  }

  lemma {:induction false} FirstEnd(name: string) returns (k: nat)
    requires exists c :: c in name && Ends(c)
    ensures k < |name| && Ends(name[k]) && forall i :: 0 <= i < k ==> !Ends(name[i])
  {
    k := 0;
    while !Ends(name[k])
      invariant k < |name| && forall i :: 0 <= i < k ==> !Ends(name[i])
      invariant exists i :: k <= i < |name| && Ends(name[i])
      decreases |name| - k
    {
      k := k + 1;
    }
  }

  /** The reply for a virus called `name` is understood exactly when the name is reportable: a name
      containing "OK", for one, reads as a clean verdict. */
  lemma FoundReplyUnderstood(name: string, rest: string)
    ensures var out := ParseScanResponse(Line(FoundReply(name) + "\0" + rest));
            out.error.None? && out.result.verdict == Infected && out.result.virusName == name
            <==> Reportable(name)
  {
    if exists c :: c in name && Ends(c) {
      assert FoundReply(name) + "\0" + rest == FoundReply(name) + ("\0" + rest);
      CutReply(name, "\0" + rest);
    } else {
      WholeReply(name, rest);
      ParseFound(name);
      if name == "" || Text.IsSpace(name[0]) || ':' in name {
        MisnamedReply(name);
      } else {
        FoundReplyNamed(name);
      }
    }
  }

  // ---- Every other reply ----

  ghost predicate SaysClean(reply: string) {
    Text.Occurs(Line(reply), "OK")
  }

  ghost predicate SaysInfected(reply: string) {
    Text.Occurs(Line(reply), "FOUND") && !Text.Occurs(Line(reply), "OK")
  }

  /** The line of a reply is all that comes before the first NUL or newline. */
  lemma {:induction false} LineCuts(s: string)
    ensures Line(s) <= s && forall i :: 0 <= i < |Line(s)| ==> s[i] != '\0' && s[i] != '\n'
    ensures |Line(s)| < |s| ==> s[|Line(s)|] == '\0' || s[|Line(s)|] == '\n'
  {
    if s == [] || Ends(s[0]) {
    } else {
      LineCuts(s[1..]);
    }
  }

  /** Whatever the daemon answers: it is clean exactly if "OK" stands somewhere in the line, infected
      exactly if "FOUND" does and "OK" does not, and an error in every other case. */
  lemma ReplyDecides(reply: string)
    ensures var out := ParseScanResponse(Line(reply));
            && (out.error.None? && out.result.verdict == Clean <==> SaysClean(reply))
            && (out.error.None? && out.result.verdict == Infected <==> SaysInfected(reply))
            && (out.error.Some? <==> !SaysClean(reply) && !SaysInfected(reply))
            && (SaysClean(reply) ==> out.result.virusName == "")
            && (out.error.Some? ==>
                  out.error.value == if Text.Occurs(Line(reply), "ERROR") then DaemonError else Unrecognized)
            && (out.error.Some? ==> out.result.verdict == if out.error.value == DaemonError then Error else NoVerdict)
            && out.result.raw == Text.TrimSpace(Line(reply))
  {
    var line := Line(reply);
    Text.TrimKeepsWord(line, "ERROR");
    Text.ContainsIsOccurs(Text.TrimSpace(line), "ERROR");
    Text.TrimKeepsWord(line, "OK");
    Text.TrimKeepsWord(line, "FOUND");
    Text.ContainsIsOccurs(Text.TrimSpace(line), "OK");
    Text.ContainsIsOccurs(Text.TrimSpace(line), "FOUND");
  }

  lemma LineOf(text: string, rest: string)
    requires forall i :: 0 <= i < |text| ==> !Ends(text[i])
    ensures Line(text + "\0" + rest) == text
  {
    LineExtends(text, "\0" + rest);
    assert text + "\0" + rest == text + ("\0" + rest);
    assert Line("\0" + rest) == "" && text + "" == text;
  }

  lemma CleanReply(rest: string)
    ensures var out := ParseScanResponse(Line("stream: OK" + "\0" + rest));
            out.error.None? && out.result.verdict == Clean
  {
    LineOf("stream: OK", rest);
    assert Text.OccursAt("stream: OK", "OK", 8);
    ReplyDecides("stream: OK" + "\0" + rest);
  }

  lemma NotInError(text: string, word: string)
    requires (word == "OK" || word == "FOUND") && Text.Occurs(text + " ERROR", word)
    ensures Text.Occurs(text, word)
  {
    var all := text + " ERROR";
    var i: nat :| Text.OccursAt(all, word, i);
    var last := i + |word| - 1;
    assert all[last] == all[i..i + |word|][|word| - 1] == word[|word| - 1];
    assert forall k :: |text| <= k < |all| ==> all[k] == " ERROR"[k - |text|];
    assert i + |word| <= |text|;
    assert text[i..i + |word|] == all[i..i + |word|];
    assert Text.OccursAt(text, word, i);
  }

  /** A reply such as "INSTREAM size limit exceeded. ERROR" is an error, never a verdict. */
  lemma ErrorReply(text: string, rest: string)
    requires !Text.Occurs(text, "OK") && !Text.Occurs(text, "FOUND")
    requires forall i :: 0 <= i < |text| ==> !Ends(text[i])
    ensures ParseScanResponse(Line(text + " ERROR" + "\0" + rest)).error.Some?
  {
    var line := text + " ERROR";
    LineOf(line, rest);
    if Text.Occurs(line, "OK") {
      NotInError(text, "OK");
    }
    if Text.Occurs(line, "FOUND") {
      NotInError(text, "FOUND");
    }
    ReplyDecides(line + "\0" + rest);
  }

  // ---- The exchange ----

  /** A connection to the daemon. Writes fail once `room` bytes were accepted; the daemon's reply
      depends on nothing but the payload it decodes. */
  class Conn {
    const daemon: Bytes -> string
    var wire: Bytes
    var room: nat

    constructor (daemon: Bytes -> string, room: nat)
      ensures wire == [] && this.daemon == daemon && this.room == room
    {
      this.daemon, this.room, wire := daemon, room, [];
    }

    method Write(data: Bytes) returns (ok: bool)
      modifies this
      ensures ok <==> |data| <= old(room)
      ensures ok ==> wire == old(wire) + data && room == old(room) - |data|
      ensures !ok ==> old(wire) <= wire <= old(wire) + data
    {
      ok := |data| <= room;
      var n := if ok then |data| else room;
      wire, room := wire + data[..n], room - n;
    }

    /** What comes back after `command` and the stream behind it. */
    method Reply(command: Bytes, acts: seq<Act>) returns (r: Source<char>)
      requires command <= wire
      ensures fresh(r) && r.Valid() && r.acts == acts
      ensures r.Rest() == match Unframe(wire[|command|..])
                          case None => ""
                          case Some((frames, _)) => daemon(Concat(frames))
    {
      var text := "";
      match Unframe(wire[|command|..]) {
        case None =>
        case Some((frames, _)) => text := daemon(Concat(frames));
      }
      r := new Source<char>(text, acts);
      assert r.Rest() == text;
    }
  }

  /** "zINSTREAM" and a NUL. */
  const INSTREAM: Bytes := [122, 73, 78, 83, 84, 82, 69, 65, 77, 0]

  method WriteFrame(conn: Conn, data: Bytes) returns (ok: bool)
    requires 0 < |data| < WORD_LIMIT
    modifies conn
    ensures ok <==> 4 + |data| <= old(conn.room)
    ensures ok ==> conn.wire == old(conn.wire) + Word(|data|) + data
    ensures ok ==> conn.room == old(conn.room) - 4 - |data|
  {
    ok := conn.Write(Word(|data|));
    if ok {
      ok := conn.Write(data);
    }
  }

  /** `payload` went out after `before`, in non-empty frames of at most one buffer each. */
  ghost predicate Sent(before: Bytes, frames: seq<Bytes>, payload: Bytes, wire: Bytes) {
    && (forall i :: 0 <= i < |frames| ==> 0 < |frames[i]| <= CHUNK_SIZE)
    && Concat(frames) == payload
    && wire == before + Framed(frames)
  }

  lemma SentAppend(before: Bytes, frames: seq<Bytes>, payload: Bytes, wire: Bytes, data: Bytes)
    requires Sent(before, frames, payload, wire)
    requires 0 < |data| <= CHUNK_SIZE
    ensures Sent(before, frames + [data], payload + data, wire + Word(|data|) + data)
  {
    FramedAppend(frames, data);
    ConcatAppend(frames, data);
    assert before + Framed(frames) + Word(|data|) + data == before + (Framed(frames) + Word(|data|) + data);
  }

  /** What was sent, closed by a zero length, decodes to the frames. */
  lemma SentDecodes(frames: seq<Bytes>, payload: Bytes, sent: Bytes)
    requires Sent(INSTREAM, frames, payload, sent)
    ensures var wire := sent + Word(0);
            && INSTREAM <= wire && Unframe(wire[|INSTREAM|..]) == Some((frames, []))
            && |wire| >= 4 && wire[|wire| - 4..] == Word(0) && wire[..|wire| - 4] == sent
  {
    var wire := sent + Word(0);
    assert wire == INSTREAM + (Framed(frames) + (Word(0) + []));
    assert wire[|INSTREAM|..] == Framed(frames) + (Word(0) + []);
    UnframeFramed(frames, []);
  }

  /** The loop of ScanStream: every byte the reader delivers leaves in a frame. `patience` is the
      number of rounds before the context is cancelled. */
  method SendPayload(conn: Conn, r: Source<Byte>, patience: nat)
    returns (error: Option<ScanError>, ghost frames: seq<Bytes>)
    requires r.Valid()
    modifies conn, r
    ensures r.Valid()
    ensures error.None? ==> r.pos == |r.content|
    ensures old(r.Reliable()) ==> r.Reliable()
    ensures error.None? ==> Sent(old(conn.wire), frames, old(r.Rest()), conn.wire)
    ensures error.None? ==> conn.room >= old(conn.room) - 5 * |old(r.Rest())|
    ensures error == None || error == Some(Cancelled) || error == Some(WriteFailed) || error == Some(PayloadFailed)
    ensures error == Some(Cancelled) ==> patience <= old(r.Effort())
    ensures error == Some(WriteFailed) ==> old(conn.room) < 5 * |old(r.Rest())|
    ensures error == Some(PayloadFailed) ==> !old(r.Reliable())
  {
    var left := patience;
    frames := [];
    while true
      invariant r.Valid() && old(r.pos) <= r.pos
      invariant old(r.Reliable()) ==> r.Reliable()
      invariant patience - left <= old(r.Effort()) - r.Effort()
      invariant Sent(old(conn.wire), frames, r.content[old(r.pos)..r.pos], conn.wire)
      invariant conn.room >= old(conn.room) - 5 * (r.pos - old(r.pos))
      decreases r.Effort()
    {
      if left == 0 {
        return Some(Cancelled), frames;
      }
      left := left - 1;
      ghost var before := r.content[old(r.pos)..r.pos];
      var data, err := r.Read(CHUNK_SIZE);
      assert r.content[old(r.pos)..r.pos] == before + data;
      if |data| > 0 {
        SentAppend(old(conn.wire), frames, before, conn.wire, data);
        var ok := WriteFrame(conn, data);
        if !ok {
          return Some(WriteFailed), frames;
        }
        frames := frames + [data];
      }
      if err != NoError {
        return if err == Eof then None else Some(PayloadFailed), frames;
      }
    }
  }

  method AwaitAnswer(conn: Conn, ghost frames: seq<Bytes>, replyActs: seq<Act>) returns (out: Outcome)
    requires INSTREAM <= conn.wire && Unframe(conn.wire[|INSTREAM|..]) == Some((frames, []))
    ensures out.error.None? <==> out.result.verdict in {Clean, Infected}
    ensures out.error.None? || NeverFails(replyActs) ==>
              out == ParseScanResponse(Line(conn.daemon(Concat(frames))))
  {
    var reply := conn.Reply(INSTREAM, replyActs);
    var text, ok := ReadUntilNull(reply);
    if !ok {
      return Failed(ReplyFailed);
    }
    out := ParseScanResponse(text);
  }

  /** What the daemon says of a payload, whatever way the bytes travelled. */
  function DaemonSays(daemon: Bytes -> string, payload: Bytes): Outcome {
    ParseScanResponse(Line(daemon(payload)))
  }

  /** Nothing goes wrong on the way: the reader and the connection deliver, the context lives long
      enough, and the connection takes the payload with its lengths and the command. */
  predicate Undisturbed(size: nat, acts: seq<Act>, patience: nat, room: nat, replyActs: seq<Act>) {
    && NeverFails(acts) && NeverFails(replyActs)
    && patience > |acts| + size && room >= 5 * size + |INSTREAM| + 4
  }

  /** The command and the byte order of the lengths, as the daemon expects them. */
  lemma WireBytes(n: nat)
    requires n < WORD_LIMIT
    ensures |INSTREAM| == 10 && forall i :: 0 <= i < 10 ==> INSTREAM[i] as int == "zINSTREAM\0"[i] as int
    ensures var b := Word(n); n == ((b[0] as int * 256 + b[1] as int) * 256 + b[2] as int) * 256 + b[3] as int
  {
  }

  /** Streams all of `r` to the daemon. When no error comes back, the reader was read to its end (so a
      tee in front of it has seen every byte), the whole input went out as non-empty frames closed by
      one zero length, and the outcome is the daemon's answer to exactly these bytes: it does not depend
      on how the reader cut them up. When nothing goes wrong on the way, that answer is the outcome. */
  method ScanStream(conn: Conn, r: Source<Byte>, patience: nat, replyActs: seq<Act>)
    returns (out: Outcome, ghost frames: seq<Bytes>)
    requires r.Valid() && conn.wire == []
    modifies conn, r
    ensures r.Valid()
    ensures out.error.None? ==> r.pos == |r.content|
    ensures old(r.Reliable()) ==> r.Reliable()
    ensures out.error.None? <==> out.result.verdict in {Clean, Infected}
    ensures out.error.None? ==>
              && |conn.wire| >= 4 && conn.wire[|conn.wire| - 4..] == Word(0)
              && Sent(INSTREAM, frames, old(r.Rest()), conn.wire[..|conn.wire| - 4])
    ensures out.error.None? || Undisturbed(|old(r.Rest())|, old(r.acts), patience, old(conn.room), replyActs) ==>
              out == DaemonSays(conn.daemon, old(r.Rest()))
    ensures var reply := conn.daemon(old(r.Rest()));
            && (out.error.None? ==> (out.result.verdict == Clean <==> SaysClean(reply)))
            && (out.error.None? ==> (out.result.verdict == Infected <==> SaysInfected(reply)))
            && (Undisturbed(|old(r.Rest())|, old(r.acts), patience, old(conn.room), replyActs) ==>
                  (out.error.None? <==> SaysClean(reply) || SaysInfected(reply)))
  {
    ReplyDecides(conn.daemon(r.Rest()));
    frames := [];
    var ok := conn.Write(INSTREAM);
    if !ok {
      return Failed(WriteFailed), frames;
    }
    var error;
    error, frames := SendPayload(conn, r, patience);
    if error.Some? {
      return Failed(error.value), frames;
    }
    ghost var sent := conn.wire;
    ok := conn.Write(Word(0));
    if !ok {
      return Failed(WriteFailed), frames;
    }
    SentDecodes(frames, old(r.Rest()), sent);
    out := AwaitAnswer(conn, frames, replyActs);
  }
}
