/** The string helpers of Go's `strings` package that the modelled code calls. */
module Text {

  /** `unicode.IsSpace`. */
  predicate IsSpace(c: char) {
    || '\t' <= c <= '\r' || c == ' ' || c == '\U{0085}' || c == '\U{00A0}'
    || c == '\U{1680}' || '\U{2000}' <= c <= '\U{200A}' || c == '\U{2028}'
    || c == '\U{2029}' || c == '\U{202F}' || c == '\U{205F}' || c == '\U{3000}'
  }

  predicate IsQuote(c: char) {
    c == '"' || c == '\''
  }

  function TrimLeft(s: string, cut: char -> bool): string {
    if s != [] && cut(s[0]) then TrimLeft(s[1..], cut) else s
  }

  function TrimRight(s: string, cut: char -> bool): string {
    if s != [] && cut(s[|s| - 1]) then TrimRight(s[..|s| - 1], cut) else s
  }

  function TrimSpace(s: string): string {
    TrimRight(TrimLeft(s, IsSpace), IsSpace)
  }

  /** `strings.Trim(s, "\"'")`. */
  function TrimQuotes(s: string): string {
    TrimRight(TrimLeft(s, IsQuote), IsQuote)
  }

  function TrimSuffix(s: string, suffix: string): string {
    if |suffix| <= |s| && s[|s| - |suffix|..] == suffix then s[..|s| - |suffix|] else s
  }

  predicate Contains(s: string, t: string) {
    t <= s || (s != [] && Contains(s[1..], t))
  }

  /** The position of the first `c`, or |s| when there is none. */
  function IndexOf(s: string, c: char): (i: nat)
    ensures i <= |s|
    ensures c !in s[..i]
    ensures i < |s| <==> c in s
    ensures i < |s| ==> s[i] == c
  {
    if s == [] || s[0] == c then 0 else 1 + IndexOf(s[1..], c)
  }

  function Split(s: string, sep: char): (parts: seq<string>)
    ensures |parts| >= 1
    decreases |s|
  {
    var i := IndexOf(s, sep);
    if i == |s| then [s] else [s[..i]] + Split(s[i + 1..], sep)
  }

  function Join(parts: seq<string>, sep: char): string
    requires parts != []
  {
    if |parts| == 1 then parts[0] else parts[0] + [sep] + Join(parts[1..], sep)
  }

  lemma TrimSuffixAppend(s: string, suffix: string)
    ensures TrimSuffix(s + suffix, suffix) == s
  {
    assert (s + suffix)[|s|..] == suffix && (s + suffix)[..|s|] == s;
  }

  /** A string that is clean at both ends is not changed by trimming. */
  lemma TrimFixed(s: string, cut: char -> bool)
    requires s != [] ==> !cut(s[0]) && !cut(s[|s| - 1])
    ensures TrimRight(TrimLeft(s, cut), cut) == s
  {
  }

  lemma {:induction false} TrimLeftFacts(s: string, cut: char -> bool)
    ensures |TrimLeft(s, cut)| <= |s|
    ensures TrimLeft(s, cut) != [] ==> !cut(TrimLeft(s, cut)[0])
    ensures s != [] && cut(s[0]) ==> |TrimLeft(s, cut)| < |s|
  {
    if s != [] && cut(s[0]) {
      TrimLeftFacts(s[1..], cut);
    }
  }

  lemma {:induction false} TrimRightFacts(s: string, cut: char -> bool)
    ensures TrimRight(s, cut) <= s
  {
    if s != [] && cut(s[|s| - 1]) {
      TrimRightFacts(s[..|s| - 1], cut);
    }
  }

  /** Trimming leaves no space in front, and is shorter when there was one. */
  lemma TrimSpaceFacts(s: string)
    ensures |TrimSpace(s)| <= |s|
    ensures TrimSpace(s) != [] ==> !IsSpace(TrimSpace(s)[0])
    ensures s != [] && IsSpace(s[0]) ==> |TrimSpace(s)| < |s|
  {
    TrimLeftFacts(s, IsSpace);
    TrimRightFacts(TrimLeft(s, IsSpace), IsSpace);
  }

  lemma JoinCons(first: string, parts: seq<string>, sep: char)
    requires parts != []
    ensures Join([first] + parts, sep) == first + [sep] + Join(parts, sep)
  {
    assert ([first] + parts)[1..] == parts;
  }

  lemma CutAt(s: string, i: nat)
    requires i < |s|
    ensures s[..i] + [s[i]] + s[i + 1..] == s
  {
  }

  lemma {:induction false} JoinSplit(s: string, sep: char)
    ensures Join(Split(s, sep), sep) == s
    decreases |s|
  {
    var i := IndexOf(s, sep);
    if i < |s| {
      JoinSplit(s[i + 1..], sep);
      JoinCons(s[..i], Split(s[i + 1..], sep), sep);
      CutAt(s, i);
    }
  }

  lemma {:induction false} SplitPartsClean(s: string, sep: char)
    ensures forall k :: 0 <= k < |Split(s, sep)| ==> sep !in Split(s, sep)[k]
    decreases |s|
  {
    var i := IndexOf(s, sep);
    if i == |s| {
      assert s[..i] == s;
    } else {
      SplitPartsClean(s[i + 1..], sep);
    }
  }

  lemma {:induction false} IndexOfFirst(s: string, c: char, k: nat)
    requires k < |s| && s[k] == c
    ensures IndexOf(s, c) <= k
  {
    if s[0] != c {
      IndexOfFirst(s[1..], c, k - 1);
    }
  }

  lemma IndexOfAppend(a: string, sep: char, b: string)
    requires sep !in a
    ensures IndexOf(a + [sep] + b, sep) == |a|
  {
    var s, i := a + [sep] + b, IndexOf(a + [sep] + b, sep);
    assert s[|a|] == sep;
    assert forall k :: 0 <= k < |a| ==> s[k] == a[k];
  }

  lemma {:induction false} SplitJoin(parts: seq<string>, sep: char)
    requires parts != []
    requires forall k :: 0 <= k < |parts| ==> sep !in parts[k]
    ensures Split(Join(parts, sep), sep) == parts
  {
    if |parts| == 1 {
      assert Split(parts[0], sep) == parts;
    } else {
      var rest := Join(parts[1..], sep);
      IndexOfAppend(parts[0], sep, rest);
      var s := parts[0] + [sep] + rest;
      assert s[..|parts[0]|] == parts[0] && s[|parts[0]| + 1..] == rest;
      SplitJoin(parts[1..], sep);
    }
  }

  lemma {:induction false} ContainsAt(s: string, t: string, i: nat)
    requires i + |t| <= |s| && s[i..i + |t|] == t
    ensures Contains(s, t)
  {
    if i == 0 {
      assert t <= s;
    } else {
      assert s[1..][i - 1..i - 1 + |t|] == t;
      ContainsAt(s[1..], t, i - 1);
    }
  }

  lemma {:induction false} ContainsWitness(s: string, t: string) returns (i: nat)
    requires Contains(s, t)
    ensures i + |t| <= |s| && s[i..i + |t|] == t
  {
    if t <= s {
      i := 0;
    } else {
      i := ContainsWitness(s[1..], t);
      i := i + 1;
    }
  }

  /** `t` stands somewhere in `s`. */
  ghost predicate Occurs(s: string, t: string) {
    exists i: nat :: OccursAt(s, t, i)
  }

  predicate OccursAt(s: string, t: string, i: nat) {
    i + |t| <= |s| && s[i..i + |t|] == t
  }

  lemma ContainsIsOccurs(s: string, t: string)
    ensures Contains(s, t) <==> Occurs(s, t)
  {
    if Contains(s, t) {
      var i := ContainsWitness(s, t);
      assert OccursAt(s, t, i);
    }
    if Occurs(s, t) {
      var i: nat :| OccursAt(s, t, i);
      ContainsAt(s, t, i);
    }
  }

  lemma {:induction false} TrimLeftSplits(s: string, cut: char -> bool) returns (pre: string)
    ensures s == pre + TrimLeft(s, cut) && forall i :: 0 <= i < |pre| ==> cut(pre[i])
  {
    pre := "";
    if s != [] && cut(s[0]) {
      var more := TrimLeftSplits(s[1..], cut);
      pre := [s[0]] + more;
      assert s == [s[0]] + s[1..];
    }
  }

  lemma {:induction false} TrimRightSplits(s: string, cut: char -> bool) returns (post: string)
    ensures s == TrimRight(s, cut) + post && forall i :: 0 <= i < |post| ==> cut(post[i])
    ensures TrimRight(s, cut) != [] ==> !cut(TrimRight(s, cut)[|TrimRight(s, cut)| - 1])
  {
    post := "";
    if s != [] && cut(s[|s| - 1]) {
      var more := TrimRightSplits(s[..|s| - 1], cut);
      post := more + [s[|s| - 1]];
      assert s == s[..|s| - 1] + [s[|s| - 1]];
    }
  }

  /** Trimming takes what it cuts off both ends, all of it, and nothing else. */
  lemma TrimSplits(s: string, cut: char -> bool) returns (pre: string, post: string)
    ensures var t := TrimRight(TrimLeft(s, cut), cut);
            && s == pre + t + post
            && (forall i :: 0 <= i < |pre| ==> cut(pre[i])) && (forall i :: 0 <= i < |post| ==> cut(post[i]))
            && (t != [] ==> !cut(t[0]) && !cut(t[|t| - 1]))
  {
    pre := TrimLeftSplits(s, cut);
    post := TrimRightSplits(TrimLeft(s, cut), cut);
    TrimLeftFacts(s, cut);
    TrimRightFacts(TrimLeft(s, cut), cut);
    assert s == pre + (TrimRight(TrimLeft(s, cut), cut) + post);
  }

  lemma {:induction false} TrimLeftPadded(pre: string, body: string, cut: char -> bool)
    requires (forall i :: 0 <= i < |pre| ==> cut(pre[i])) && (body != "" ==> !cut(body[0]))
    ensures TrimLeft(pre + body, cut) == body
  {
    if pre == "" {
      assert pre + body == body;
    } else {
      assert (pre + body)[0] == pre[0] && (pre + body)[1..] == pre[1..] + body;
      TrimLeftPadded(pre[1..], body, cut);
    }
  }

  lemma {:induction false} TrimRightPadded(body: string, post: string, cut: char -> bool)
    requires (forall i :: 0 <= i < |post| ==> cut(post[i])) && (body != "" ==> !cut(body[|body| - 1]))
    ensures TrimRight(body + post, cut) == body
  {
    if post == "" {
      assert body + post == body;
    } else {
      var n := |post| - 1;
      assert (body + post)[|body| + n] == post[n] && (body + post)[..|body| + n] == body + post[..n];
      TrimRightPadded(body, post[..n], cut);
    }
  }

  lemma TrimPadded(pre: string, body: string, post: string, cut: char -> bool)
    requires (forall i :: 0 <= i < |pre| ==> cut(pre[i])) && (forall i :: 0 <= i < |post| ==> cut(post[i]))
    requires body != "" && !cut(body[0]) && !cut(body[|body| - 1])
    ensures TrimRight(TrimLeft(pre + body + post, cut), cut) == body
  {
    assert pre + body + post == pre + (body + post);
    TrimLeftPadded(pre, body + post, cut);
    TrimRightPadded(body, post, cut);
  }

  /** A word without space at its ends stands in a text exactly if it stands in the trimmed text. */
  lemma TrimKeepsWord(s: string, word: string)
    requires word != "" && !IsSpace(word[0]) && !IsSpace(word[|word| - 1])
    ensures Occurs(TrimSpace(s), word) <==> Occurs(s, word)
  {
    var pre, post := TrimSplits(s, IsSpace);
    var t := TrimSpace(s);
    if Occurs(t, word) {
      var i: nat :| OccursAt(t, word, i);
      assert s[|pre| + i..|pre| + i + |word|] == t[i..i + |word|];
      assert OccursAt(s, word, |pre| + i);
    }
    if Occurs(s, word) {
      var i: nat :| OccursAt(s, word, i);
      assert s[i] == s[i..i + |word|][0] == word[0];
      assert s[i + |word| - 1] == s[i..i + |word|][|word| - 1] == word[|word| - 1];
      assert i >= |pre|;
      assert i + |word| <= |pre| + |t|;
      assert t[i - |pre|..i - |pre| + |word|] == s[i..i + |word|];
      assert OccursAt(t, word, i - |pre|);
    }
  }
}
