/** internal/crypto/keygen.go: the master key and the .env file that keeps it. */
module Keygen {
  import opened Basics
  import Hex
  import Text

  const KEY_PREFIX := "clam_sec_"
  const NAME := "ENCRYPTION_KEY"
  const KEY_BYTES := 32
  const KEY_DIGITS := 64
  // bufio.Scanner gives up on a line that does not fit its buffer of 64 KiB with the newline.
  const LINE_LIMIT := 65535

  // ---- Keys ----

  datatype KeyError = NoPrefix | BadLength | BadHex

  function KeyText(raw: Bytes): string {
    KEY_PREFIX + Hex.Encode(raw)
  }

  function ParseMasterKey(text: string): Result<Bytes, KeyError> {
    var key := Text.TrimSpace(text);
    if !(KEY_PREFIX <= key) then Err(NoPrefix)
    else
      var digits := key[|KEY_PREFIX|..];
      if |digits| != KEY_DIGITS then Err(BadLength)
      else
        match Hex.Decode(digits)
        case None => Err(BadHex)
        case Some(raw) => if |raw| != KEY_BYTES then Err(BadLength) else Ok(raw)
  }

  /** A key text is made of letters, digits and underscores only. */
  predicate IsKeyChar(c: char) {
    '0' <= c <= '9' || 'a' <= c <= 'z' || c == '_'
  }

  lemma KeyTextFacts(raw: Bytes)
    requires |raw| == KEY_BYTES
    ensures |KeyText(raw)| == 73 && forall i :: 0 <= i < 73 ==> IsKeyChar(KeyText(raw)[i])
    ensures Text.TrimSpace(KeyText(raw)) == KeyText(raw) == Text.TrimQuotes(KeyText(raw))
  {
    Hex.RoundTrip(raw);
    var key := KeyText(raw);
    assert forall i :: 0 <= i < 9 ==> IsKeyChar(KEY_PREFIX[i]);
    assert forall i :: 9 <= i < 73 ==> key[i] == Hex.Encode(raw)[i - 9];
    Text.TrimFixed(key, Text.IsSpace);
    Text.TrimFixed(key, Text.IsQuote);
  }

  lemma KeyRoundTrip(raw: Bytes)
    requires |raw| == KEY_BYTES
    ensures ParseMasterKey(KeyText(raw)) == Ok(raw)
  {
    KeyTextFacts(raw);
    Hex.RoundTrip(raw);
    assert KeyText(raw)[|KEY_PREFIX|..] == Hex.Encode(raw);
  }

  /** A text is taken for a key exactly if it is, spaces around it aside, the prefix and a spelling of 32
      bytes in hexadecimal, in whatever letter case; and the key is these bytes. */
  lemma KeyAccepted(text: string, raw: Bytes)
    ensures ParseMasterKey(text) == Ok(raw) <==>
            && |raw| == 32
            && exists digits :: Text.TrimSpace(text) == "clam_sec_" + digits && Hex.EqualFold(digits, Hex.Encode(raw))
  {
    var key := Text.TrimSpace(text);
    Hex.RoundTrip(raw);
    if ParseMasterKey(text) == Ok(raw) {
      Hex.FoldIsSpelling(key[9..], raw);
      assert key == "clam_sec_" + key[9..];
    }
    if digits: string :| key == "clam_sec_" + digits && Hex.EqualFold(digits, Hex.Encode(raw)) {
      Hex.FoldIsSpelling(digits, raw);
      assert key[9..] == digits;
    }
  }

  // ---- Lines ----

  function CharBytes(c: char): nat {
    if c < '\U{80}' then 1 else if c < '\U{800}' then 2 else if c < '\U{10000}' then 3 else 4
  }

  function ByteLength(s: string): nat {
    if s == "" then 0 else CharBytes(s[0]) + ByteLength(s[1..])
  }

  predicate TooLong(line: string) {
    ByteLength(line) > LINE_LIMIT
  }

  /** bufio.ScanLines drops one carriage return. */
  function DropCr(line: string): string {
    if line != "" && line[|line| - 1] == '\r' then line[..|line| - 1] else line
  }

  /** What the reader looks at. */
  function Trimmed(line: string): string {
    Text.TrimSpace(DropCr(line))
  }

  /** The reader takes this line for the key's: the name is trimmed. */
  predicate Sets(line: string) {
    var t := Trimmed(line);
    && !("#" <= t) && '=' in t
    && Text.TrimSpace(t[..Text.IndexOf(t, '=')]) == NAME
  }

  function ValueOf(line: string): string
    requires Sets(line)
  {
    var t := Trimmed(line);
    Text.TrimQuotes(Text.TrimSpace(t[Text.IndexOf(t, '=') + 1..]))
  }

  /** The writer takes this line for the key's: no space may stand before the equals sign. */
  predicate Writes(line: string) {
    NAME + "=" <= Text.TrimSpace(line)
  }

  function KeyLine(key: string): string {
    NAME + "=" + key
  }

  predicate Spaces(s: string) {
    forall i :: 0 <= i < |s| ==> Text.IsSpace(s[i])
  }

  predicate Quotes(s: string) {
    forall i :: 0 <= i < |s| ==> s[i] == '"' || s[i] == '\''
  }

  lemma TrimmedPadded(pre: string, body: string, post: string)
    requires Spaces(pre) && Spaces(post)
    requires body != "" && !Text.IsSpace(body[0]) && !Text.IsSpace(body[|body| - 1])
    ensures Trimmed(pre + body + post) == body
  {
    var line := pre + body + post;
    if post == "" {
      assert line[|line| - 1] == body[|body| - 1];
      assert DropCr(line) == line;
      Text.TrimPadded(pre, body, post, Text.IsSpace);
    } else {
      var n := |post| - 1;
      assert line[..|line| - 1] == pre + body + post[..n];
      Text.TrimPadded(pre, body, post, Text.IsSpace);
      Text.TrimPadded(pre, body, post[..n], Text.IsSpace);
    }
  }

  lemma ValueFound(gap: string, open: string, value: string, close: string)
    requires Spaces(gap) && Quotes(open) && Quotes(close)
    requires value != "" && var a, z := value[0], value[|value| - 1];
             !Text.IsSpace(a) && !Text.IsQuote(a) && !Text.IsSpace(z) && !Text.IsQuote(z)
    ensures var quoted := open + value + close;
            && Text.TrimQuotes(Text.TrimSpace(gap + quoted)) == value
            && !Text.IsSpace(quoted[|quoted| - 1])
  {
    var quoted := open + value + close;
    assert quoted[0] == (if open == "" then value[0] else open[0]);
    assert quoted[|quoted| - 1] == (if close == "" then value[|value| - 1] else close[|close| - 1]);
    Text.TrimPadded(gap, quoted, "", Text.IsSpace);
    assert gap + quoted + "" == gap + quoted;
    Text.TrimPadded(open, value, close, Text.IsQuote);
  }

  /** The name, perhaps with spaces around it, an equals sign, and the value, perhaps in quotes and with
      spaces around these: the reader takes the line for the key's and finds the value. */
  lemma SettingRead(pre: string, mid: string, gap: string, open: string, value: string, close: string, post: string)
    requires Spaces(pre) && Spaces(mid) && Spaces(gap) && Spaces(post) && Quotes(open) && Quotes(close)
    requires value != "" && var a, z := value[0], value[|value| - 1];
             !Text.IsSpace(a) && !Text.IsQuote(a) && !Text.IsSpace(z) && !Text.IsQuote(z)
    ensures var line := pre + ("ENCRYPTION_KEY" + mid + "=" + (gap + (open + value + close))) + post;
            Sets(line) && ValueOf(line) == value
  {
    var quoted := open + value + close;
    var body := "ENCRYPTION_KEY" + mid + "=" + (gap + quoted);
    ValueFound(gap, open, value, close);
    assert body[0] == 'E' && body[|body| - 1] == quoted[|quoted| - 1];
    TrimmedPadded(pre, body, post);
    NameFound(mid, gap + quoted);
  }

  lemma NameFound(mid: string, rest: string)
    requires Spaces(mid)
    ensures var t := "ENCRYPTION_KEY" + mid + "=" + rest;
            var i := Text.IndexOf(t, '=');
            i < |t| && t[i + 1..] == rest && Text.TrimSpace(t[..i]) == "ENCRYPTION_KEY"
  {
    var name := "ENCRYPTION_KEY";
    var t := name + mid + "=" + rest;
    assert '=' !in name + mid by {
      assert forall i :: 0 <= i < |name + mid| ==>
               (name + mid)[i] == if i < |name| then name[i] else mid[i - |name|];
    }
    assert t == (name + mid) + ['='] + rest;
    Text.IndexOfAppend(name + mid, '=', rest);
    assert t[..|name + mid|] == name + mid && t[|name + mid| + 1..] == rest;
    assert "" + name + mid == name + mid && name[0] == 'E' && name[13] == 'Y';
    Text.TrimPadded("", name, mid, Text.IsSpace);
  }

  predicate Assigns(t: string, mid: string, rest: string) {
    Spaces(mid) && t == "ENCRYPTION_KEY" + mid + "=" + rest
  }

  lemma LeadingName(part: string) returns (mid: string)
    requires Text.TrimSpace(part) == NAME && (part != "" ==> !Text.IsSpace(part[0]))
    ensures Spaces(mid) && part == "ENCRYPTION_KEY" + mid
  {
    var pre, post := Text.TrimSplits(part, Text.IsSpace);
    assert pre == "";
    mid := post;
  }

  lemma SettingAssigns(line: string) returns (mid: string, rest: string)
    requires Sets(line)
    ensures Assigns(Trimmed(line), mid, rest)
  {
    var t := Trimmed(line);
    var i := Text.IndexOf(t, '=');
    Text.TrimSpaceFacts(DropCr(line));
    mid := LeadingName(t[..i]);
    rest := t[i + 1..];
    assert t == t[..i] + ['='] + rest;
  }

  /** The reader takes exactly the lines for the key's that have the name, perhaps spaces, and an equals
      sign at their start, leading spaces aside. */
  lemma SetsInFigures(line: string)
    ensures Sets(line) <==> exists mid, rest :: Assigns(Trimmed(line), mid, rest)
  {
    var t := Trimmed(line);
    if Sets(line) {
      var mid, rest := SettingAssigns(line);
    }
    if mid, rest :| Assigns(t, mid, rest) {
      NameFound(mid, rest);
      assert t[0] == 'E';
    }
  }

  /** In a line of ASCII characters, 65535 are the limit. */
  lemma {:induction false} AsciiLength(s: string)
    requires forall i :: 0 <= i < |s| ==> s[i] < '\U{80}'
    ensures ByteLength(s) == |s| && (TooLong(s) <==> |s| > 65535)
  {
    if s != "" {
      AsciiLength(s[1..]);
    }
  }

  datatype Reading = Found(value: string) | Missing | Unreadable

  function ReadLines(lines: seq<string>): Reading {
    if lines == [] then Missing
    else if TooLong(lines[0]) then Unreadable
    else if Sets(lines[0]) then Found(ValueOf(lines[0]))
    else ReadLines(lines[1..])
  }

  function Lines(content: string): seq<string> {
    Text.Split(content, '\n')
  }

  function Content(lines: seq<string>): string
    requires lines != []
  {
    Text.Join(lines, '\n')
  }

  /** The position of the line the writer replaces, or the number of lines. */
  function WriteAt(lines: seq<string>): (i: nat)
    ensures i <= |lines|
  {
    if lines == [] || Writes(lines[0]) then 0 else 1 + WriteAt(lines[1..])
  }

  function WriteLines(lines: seq<string>, key: string): seq<string> {
    var i := WriteAt(lines);
    if i < |lines| then lines[i := KeyLine(key)] else lines + [KeyLine(key)]
  }

  const BANNER_START := "# Auto-generated"
  const BANNER_SERVICE := " clamav-service"
  const BANNER_TOPIC := " environment"
  const BANNER_END := " configuration"

  /** The comment on top of a new file. */
  function Banner(): string {
    BANNER_START + BANNER_SERVICE + BANNER_TOPIC + BANNER_END
  }

  function Written(file: Option<string>, key: string): string {
    match file
    case None => Content([Banner(), KeyLine(key), ""])
    case Some(content) =>
      var lines := WriteLines(Lines(content), key);
      assert lines != [];
      Content(lines)
  }

  /** The key that the file already holds, if any. */
  function Existing(file: Option<string>): Option<(string, Bytes)> {
    match file
    case None => None
    case Some(content) =>
      match ReadLines(Lines(content))
      case Found(value) =>
        if value == "" then None
        else
          (match ParseMasterKey(value)
           case Ok(raw) => Some((value, raw))
           case Err(_) => None)
      case _ => None
  }

  /** No line before the one the writer changes is taken for the key's by the reader alone, or stops
      the reader. */
  predicate Unshadowed(lines: seq<string>) {
    forall i :: 0 <= i < WriteAt(lines) ==> !TooLong(lines[i]) && !Sets(lines[i])
  }

  // ---- Reading what was written ----

  lemma {:induction false} ByteLengthBound(s: string)
    ensures ByteLength(s) <= 4 * |s|
  {
    if s != "" {
      ByteLengthBound(s[1..]);
    }
  }

  lemma KeyLineSets(key: string)
    requires key != "" && var a, z := key[0], key[|key| - 1];
             !Text.IsSpace(a) && !Text.IsQuote(a) && !Text.IsSpace(z) && !Text.IsQuote(z)
    ensures Sets(KeyLine(key)) && ValueOf(KeyLine(key)) == key
  {
    var line := KeyLine(key);
    assert line == NAME + ['='] + key;
    assert line[0] == 'E' && line[|line| - 1] == key[|key| - 1];
    Text.TrimFixed(line, Text.IsSpace);
    Text.TrimFixed(key, Text.IsSpace);
    Text.TrimFixed(key, Text.IsQuote);
    Text.IndexOfAppend(NAME, '=', key);
    assert line[..14] == NAME && line[15..] == key;
    assert NAME[0] == 'E' && NAME[13] == 'Y';
    Text.TrimFixed(NAME, Text.IsSpace);
  }

  lemma KeyLineOneLine(key: string)
    requires forall i :: 0 <= i < |key| ==> key[i] != '\n'
    ensures '\n' !in KeyLine(key)
  {
    var line := KeyLine(key);
    forall i | 0 <= i < |line| ensures line[i] != '\n' {
      if i < 14 {
        assert line[i] == NAME[i];
      } else if i > 14 {
        assert line[i] == key[i - 15];
      }
    }
  }

  lemma KeyLineReads(raw: Bytes)
    requires |raw| == KEY_BYTES
    ensures var line := KeyLine(KeyText(raw));
            !TooLong(line) && Sets(line) && ValueOf(line) == KeyText(raw) && '\n' !in line
  {
    var key := KeyText(raw);
    KeyTextFacts(raw);
    ByteLengthBound(KeyLine(key));
    KeyLineSets(key);
    KeyLineOneLine(key);
  }

  lemma {:induction false} ReadSkips(lines: seq<string>, n: nat)
    requires n <= |lines|
    requires forall i :: 0 <= i < n ==> !TooLong(lines[i]) && !Sets(lines[i])
    ensures ReadLines(lines) == ReadLines(lines[n..])
  {
    if n == 0 {
      assert lines[0..] == lines;
    } else {
      ReadSkips(lines[1..], n - 1);
      assert lines[1..][n - 1..] == lines[n..];
    }
  }

  /** The first line that counts decides what is read. */
  lemma {:induction false} ReadStops(a: seq<string>, b: seq<string>, n: nat)
    requires n <= |a| && n <= |b| && a[..n] == b[..n]
    requires exists i :: 0 <= i < n && (TooLong(a[i]) || Sets(a[i]))
    ensures ReadLines(a) == ReadLines(b) && ReadLines(a) != Missing
  {
    assert a[0] == a[..n][0] == b[..n][0] == b[0];
    if !TooLong(a[0]) && !Sets(a[0]) {
      assert a[1..][..n - 1] == a[..n][1..] == b[..n][1..] == b[1..][..n - 1];
      var i :| 0 <= i < n && (TooLong(a[i]) || Sets(a[i]));
      assert a[1..][i - 1] == a[i];
      ReadStops(a[1..], b[1..], n - 1);
    }
  }

  /** The line that decides: the first one that is too long or the key's. */
  lemma {:induction false} ReadsFirst(lines: seq<string>, n: nat)
    requires n < |lines| && (TooLong(lines[n]) || Sets(lines[n]))
    requires forall i :: 0 <= i < n ==> !TooLong(lines[i]) && !Sets(lines[i])
    ensures ReadLines(lines) == if TooLong(lines[n]) then Unreadable else Found(ValueOf(lines[n]))
  {
    ReadSkips(lines, n);
    assert lines[n..][0] == lines[n];
  }

  /** The position is that of the first line that has the name and an equals sign at its start, but for
      spaces, and the number of lines if there is none. */
  lemma {:induction false} WritesAtFirst(lines: seq<string>)
    ensures forall i :: 0 <= i < WriteAt(lines) ==> !("ENCRYPTION_KEY=" <= Text.TrimSpace(lines[i]))
    ensures WriteAt(lines) < |lines| ==> "ENCRYPTION_KEY=" <= Text.TrimSpace(lines[WriteAt(lines)])
  {
    if lines != [] && !Writes(lines[0]) {
      WritesAtFirst(lines[1..]);
      assert forall i :: 1 <= i < |lines| ==> lines[i] == lines[1..][i - 1];
    }
  }

  /** Written at a line nothing shadows, the key is read back; below a shadowing line what was read
      before is read again. */
  lemma ReadWritten(lines: seq<string>, raw: Bytes)
    requires |raw| == KEY_BYTES
    ensures ReadLines(WriteLines(lines, KeyText(raw))) ==
            if Unshadowed(lines) then Found(KeyText(raw)) else ReadLines(lines)
  {
    var i, out := WriteAt(lines), WriteLines(lines, KeyText(raw));
    KeyLineReads(raw);
    assert out[..i] == lines[..i] && out[i] == KeyLine(KeyText(raw));
    assert forall j :: 0 <= j < i ==> out[j] == lines[j];
    if Unshadowed(lines) {
      ReadSkips(out, i);
      assert out[i..][0] == out[i];
    } else {
      ReadStops(lines, out, i);
    }
  }

  lemma LinesOfWritten(content: string, raw: Bytes)
    requires |raw| == KEY_BYTES
    ensures Lines(Written(Some(content), KeyText(raw))) == WriteLines(Lines(content), KeyText(raw))
  {
    KeyLineReads(raw);
    Text.SplitPartsClean(content, '\n');
    Text.SplitJoin(WriteLines(Lines(content), KeyText(raw)), '\n');
  }

  /** A comment line is neither the key's line for the reader nor too long, if short. */
  lemma CommentSkipped(banner: string)
    requires banner != "" && banner[0] == '#' && !Text.IsSpace(banner[|banner| - 1]) && |banner| < 1000
    ensures !TooLong(banner) && !Sets(banner)
  {
    ByteLengthBound(banner);
    Text.TrimFixed(banner, Text.IsSpace);
    assert "#" <= banner;
  }

  predicate OneLine(s: string) {
    forall i :: 0 <= i < |s| ==> s[i] != '\n'
  }

  lemma OneLineJoined(a: string, b: string)
    requires OneLine(a) && OneLine(b)
    ensures OneLine(a + b)
  {
  }

  lemma BannerOneLine()
    ensures OneLine(Banner())
  {
    assert OneLine(BANNER_START) && OneLine(BANNER_SERVICE);
    assert OneLine(BANNER_TOPIC) && OneLine(BANNER_END);
    OneLineJoined(BANNER_START, BANNER_SERVICE);
    OneLineJoined(BANNER_START + BANNER_SERVICE, BANNER_TOPIC);
    OneLineJoined(BANNER_START + BANNER_SERVICE + BANNER_TOPIC, BANNER_END);
  }

  lemma BannerSkipped()
    ensures !TooLong(Banner()) && !Sets(Banner())
  {
    var banner := Banner();
    assert BANNER_START[0] == '#' && banner[0] == '#';
    assert BANNER_END[13] == 'n' && banner[|banner| - 1] == 'n';
    CommentSkipped(banner);
  }

  lemma FreshFileReads(banner: string, raw: Bytes)
    requires |raw| == KEY_BYTES && OneLine(banner) && !TooLong(banner) && !Sets(banner)
    ensures ReadLines(Lines(Content([banner, KeyLine(KeyText(raw)), ""]))) == Found(KeyText(raw))
  {
    KeyLineReads(raw);
    var lines := [banner, KeyLine(KeyText(raw)), ""];
    Text.SplitJoin(lines, '\n');
    assert lines[1..][0] == KeyLine(KeyText(raw));
  }

  lemma ExistingFound(content: string, raw: Bytes)
    requires |raw| == KEY_BYTES
    ensures ReadLines(Lines(content)) == Found(KeyText(raw)) ==> Existing(Some(content)) == Some((KeyText(raw), raw))
  {
    KeyTextFacts(raw);
    KeyRoundTrip(raw);
  }

  /** The file holds a key exactly if its deciding line has one. */
  lemma ExistingIsRead(content: string, value: string, raw: Bytes)
    ensures Existing(Some(content)) == Some((value, raw)) <==>
            ReadLines(Lines(content)) == Found(value) && ParseMasterKey(value) == Ok(raw)
  {
    assert Text.TrimSpace("") == "";
  }

  /** After the key was written, it is found again, and so a second call changes nothing, exactly
      when no earlier line shadows the written one. */
  lemma WrittenKeyFound(file: Option<string>, raw: Bytes)
    requires |raw| == KEY_BYTES && Existing(file) == None
    ensures Existing(Some(Written(file, KeyText(raw)))) == Some((KeyText(raw), raw)) <==>
            file == None || Unshadowed(Lines(file.value))
  {
    var written := Written(file, KeyText(raw));
    ExistingFound(written, raw);
    match file {
      case None =>
        BannerOneLine();
        BannerSkipped();
        FreshFileReads(Banner(), raw);
      case Some(content) =>
        LinesOfWritten(content, raw);
        ReadWritten(Lines(content), raw);
    }
  }

  lemma WriteLinesParts(lines: seq<string>, key: string)
    ensures var i, now := WriteAt(lines), WriteLines(lines, key);
            && i < |now| && now[..i] == lines[..i] && now[i] == KeyLine(key)
            && now[i + 1..] == if i < |lines| then lines[i + 1..] else []
  {
  }

  /** All lines but the one written survive, in order. */
  lemma OtherLinesSurvive(content: string, raw: Bytes)
    requires |raw| == KEY_BYTES
    ensures var was, now, i := Lines(content), Lines(Written(Some(content), KeyText(raw))), WriteAt(Lines(content));
            && i < |now| && now[..i] == was[..i] && now[i] == "ENCRYPTION_KEY=" + KeyText(raw)
            && now[i + 1..] == if i < |was| then was[i + 1..] else []
  {
    LinesOfWritten(content, raw);
    WriteLinesParts(Lines(content), KeyText(raw));
  }

  // ---- The file ----

  class EnvFile {
    var content: Option<string>

    constructor (content: Option<string>)
      ensures this.content == content
    {
      this.content := content;
    }

    method ReadKeyFromEnv() returns (r: Reading)
      requires content.Some?
      ensures r == ReadLines(Lines(content.value))
    {
      var lines := Text.Split(content.value, '\n');
      for i := 0 to |lines|
        invariant ReadLines(lines) == ReadLines(lines[i..])
      {
        if TooLong(lines[i]) {
          return Unreadable;
        }
        var line := Trimmed(lines[i]);
        if "#" <= line || '=' !in line {
          continue;
        }
        var k := Text.IndexOf(line, '=');
        if Text.TrimSpace(line[..k]) == NAME {
          return Found(Text.TrimQuotes(Text.TrimSpace(line[k + 1..])));
        }
      }
      return Missing;
    }

    method AppendOrWriteEnv(key: string)
      modifies this
      ensures content == Some(Written(old(content), key))
    {
      if content == None {
        content := Some(Text.Join([Banner(), KeyLine(key), ""], '\n'));
        return;
      }
      var lines := Text.Split(content.value, '\n');
      ghost var before := lines;
      var found, i := false, 0;
      while i < |lines| && !found
        invariant i <= |lines|
        invariant if found then i < |before| && i == WriteAt(before) && lines == before[i := KeyLine(key)]
                  else lines == before && WriteAt(before) == i + WriteAt(before[i..])
        decreases |lines| - i, !found
      {
        if Writes(lines[i]) {
          lines := lines[i := KeyLine(key)];
          found := true;
        } else {
          i := i + 1;
        }
      }
      if !found {
        lines := lines + [KeyLine(key)];
      }
      content := Some(Text.Join(lines, '\n'));
    }

    /** `drawn` is what the random source yields. */
    method EnsureMasterKey(drawn: Bytes) returns (key: string, raw: Bytes, created: bool)
      requires |drawn| == KEY_BYTES
      modifies this
      ensures created <==> Existing(old(content)) == None
      ensures !created ==> Existing(old(content)) == Some((key, raw)) && content == old(content)
      ensures created ==> key == KeyText(drawn) && raw == drawn && content == Some(Written(old(content), key))
      ensures created ==> (Existing(content) == Some((key, raw)) <==>
                             old(content) == None || Unshadowed(Lines(old(content).value)))
      ensures ParseMasterKey(key) == Ok(raw)
    {
      KeyRoundTrip(drawn);
      if content.Some? {
        var reading := ReadKeyFromEnv();
        if reading.Found? && reading.value != "" {
          var parsed := ParseMasterKey(reading.value);
          if parsed.Ok? {
            return reading.value, parsed.value, false;
          }
        }
      }
      WrittenKeyFound(content, drawn);
      key, raw, created := KeyText(drawn), drawn, true;
      AppendOrWriteEnv(key);
    }
  }
}
