/** The rest of internal/fetcher/client.go: the bounded body reader, and the lookups before dials and
    redirects. */
module SafeFetch {
  import opened Basics
  import opened Readers
  import opened AddressFilter

  // ---- The bounded reader ----

  datatype BodyError = Fine | End | Broken | TooLarge

  class BoundedReader {
    const rc: Source<Byte>
    const maxBytes: nat
    var readSoFar: nat

    /** At most the one byte read ahead to detect an overflow was not delivered. */
    ghost predicate Valid() reads this, rc {
      && rc.Valid() && readSoFar <= maxBytes
      && (rc.pos == readSoFar || (readSoFar == maxBytes && rc.pos == maxBytes + 1))
    }

    constructor (rc: Source<Byte>, maxBytes: nat)
      requires rc.Valid() && rc.pos == 0
      ensures Valid() && this.rc == rc && this.maxBytes == maxBytes && readSoFar == 0
    {
      this.rc, this.maxBytes, readSoFar := rc, maxBytes, 0;
    }

    /** Delivers the next bytes of the source, never more than the maximum in all. The maximum is
        reported as exceeded on the next call even when the source ends right there, unless the
        source announced its end together with its last bytes. */
    method Read(n: nat) returns (data: Bytes, err: BodyError)
      requires Valid() && n > 0
      modifies this, rc
      ensures Valid() && old(readSoFar) <= readSoFar
      ensures data == rc.content[old(readSoFar)..readSoFar] && |data| <= n
      ensures err == Fine ==> rc.Effort() < old(rc.Effort())
      ensures old(readSoFar) == maxBytes ==> err == TooLarge
      ensures err == TooLarge ==> readSoFar == maxBytes && |rc.content| >= maxBytes
      ensures err == TooLarge && old(readSoFar) < maxBytes ==> |rc.content| > maxBytes
      ensures err == End ==> readSoFar == |rc.content|
      ensures |rc.content| == maxBytes ==> (rc.joined <==> old(rc.joined) || (data != [] && err == End))
      ensures readSoFar == maxBytes && old(readSoFar) < maxBytes && err == End ==> data == [] || rc.joined
      ensures old(rc.Reliable()) ==> rc.Reliable() && err != Broken
    {
      if readSoFar >= maxBytes {
        return [], TooLarge;
      }
      var toRead := Min(n, maxBytes - readSoFar);
      var e;
      data, e := rc.Read(toRead);
      readSoFar := readSoFar + |data|;
      if e != NoError {
        return data, if e == Eof then End else Broken;
      }
      if readSoFar >= maxBytes {
        var extra, extraError := rc.Read(1);
        if |extra| > 0 {
          return data, TooLarge;
        }
        if extraError == Failure {
          return data, Broken;
        }
      }
      return data, Fine;
    }

    /** io.ReadAll on the body. With a reliable source the outcome is fixed by its length, but for one
        case: a body of exactly the maximum passes if and only if the source announced its end
        together with its last bytes. */
    method ReadAll() returns (data: Bytes, err: BodyError)
      requires Valid() && readSoFar == 0 && rc.pos == 0 && !rc.joined && maxBytes > 0
      modifies this, rc
      ensures Valid() && data == rc.content[..readSoFar] && err != Fine
      ensures err == End ==> data == rc.content && |rc.content| <= maxBytes
      ensures err == End && |rc.content| == maxBytes ==> rc.joined
      ensures old(rc.Reliable()) ==>
                err == if |rc.content| < maxBytes || (|rc.content| == maxBytes && rc.joined) then End else TooLarge
    {
      data, err := [], Fine;
      while err == Fine
        invariant Valid() && data == rc.content[..readSoFar]
        invariant old(rc.Reliable()) ==> rc.Reliable() && err != Broken
        invariant err == Fine && |rc.content| == maxBytes ==> !rc.joined
        invariant err == End ==> readSoFar == |rc.content|
        invariant err == TooLarge ==> |rc.content| >= maxBytes
        invariant err == TooLarge && |rc.content| == maxBytes ==> !rc.joined
        invariant err == End && |rc.content| == maxBytes ==> rc.joined
        decreases err == Fine, rc.Effort()
      {
        var size: nat :| size > 0;
        ghost var before := readSoFar;
        var more;
        more, err := Read(size);
        assert rc.content[..before] + more == rc.content[..readSoFar];
        data := data + more;
      }
    }
  }

  // ---- Lookups ----

  /** The resolver's answer for a host; without one, the host itself when it is an address. */
  datatype Lookup = Resolved(ips: seq<Bytes>) | Unresolved(literal: Option<Bytes>)

  datatype FetchError = Blocked | NoHost | TooManyRedirects | InvalidUrl | Unreachable

  function Targets(l: Lookup): Option<seq<Bytes>> {
    match l
    case Resolved(ips) => Some(ips)
    case Unresolved(Some(ip)) => Some([ip])
    case Unresolved(None) => None
  }

  /** Why a lookup is refused. */
  function LookupError(l: Lookup): FetchError {
    if Targets(l) == None then NoHost else Blocked
  }

  /** Test mode lets loopback addresses pass. */
  predicate Passes(ip: Bytes, testMode: bool) {
    !IsBlocked(ip) || (testMode && ip != [] && IsLoopback(Unwrap(ip)))
  }

  predicate Local(ip: Bytes) {
    if |ip| == 4 then ip[0] == 127
    else |ip| == 16 && (if IsMapped(ip) then ip[12] == 127 else ip[15] == 1 && forall i :: 0 <= i < 15 ==> ip[i] == 0)
  }

  /** An address passes exactly if it is public or, in test mode, a loopback address. */
  lemma PassesInFigures(ip: Bytes, testMode: bool)
    requires |ip| == 4 || |ip| == 16
    ensures Passes(ip, testMode) <==> Public(ip) || (testMode && Local(ip))
  {
    BlockedInFigures(ip);
    if |ip| == 16 && ip[15] == 1 && forall i :: 0 <= i < 15 ==> ip[i] == 0 {
      assert ip == Zeros(15) + [1];
    }
  }

  predicate AllPass(l: Lookup, testMode: bool) {
    Targets(l).Some? && forall i :: 0 <= i < |Targets(l).value| ==> Passes(Targets(l).value[i], testMode)
  }

  /** A host that does not resolve passes exactly if it is an address itself, and that passes. */
  lemma LiteralChecked(literal: Option<Bytes>, testMode: bool)
    ensures AllPass(Unresolved(literal), testMode) <==> literal.Some? && Passes(literal.value, testMode)
  {
    if literal.Some? {
      assert Targets(Unresolved(literal)).value[0] == literal.value;
    }
  }

  /** The check before a dial: succeeds exactly when there is an address and all pass. */
  method CheckedIp(l: Lookup, testMode: bool) returns (r: Result<Bytes, FetchError>)
    ensures r.Ok? <==> AllPass(l, testMode) && Targets(l).value != []
    ensures r.Ok? ==> r.value == Targets(l).value[0]
    ensures r.Err? ==> r.error == LookupError(l)
  {
    var targets := Targets(l);
    if targets == None {
      return Err(NoHost);
    }
    var dialIp: Option<Bytes> := None;
    for i := 0 to |targets.value|
      invariant forall j :: 0 <= j < i ==> Passes(targets.value[j], testMode)
      invariant dialIp == if i == 0 then None else Some(targets.value[0])
    {
      var blocked := IsBlockedIP(targets.value[i]);
      if testMode && targets.value[i] != [] && IsLoopback(Unwrap(targets.value[i])) {
        blocked := false;
      }
      if blocked {
        return Err(Blocked);
      }
      if dialIp == None {
        dialIp := Some(targets.value[i]);
      }
    }
    return if dialIp == None then Err(Blocked) else Ok(dialIp.value);
  }

  /** The checks without a dial, before the first request and on each redirect: an empty answer passes. */
  method CheckTargets(l: Lookup, testMode: bool) returns (r: Option<FetchError>)
    ensures r == None <==> AllPass(l, testMode)
    ensures r.Some? ==> r.value == LookupError(l)
  {
    var targets := Targets(l);
    if targets == None {
      return Some(NoHost);
    }
    for i := 0 to |targets.value|
      invariant forall j :: 0 <= j < i ==> Passes(targets.value[j], testMode)
    {
      var blocked := IsBlockedIP(targets.value[i]);
      if testMode && targets.value[i] != [] && IsLoopback(Unwrap(targets.value[i])) {
        blocked := false;
      }
      if blocked {
        return Some(Blocked);
      }
    }
    return None;
  }

  // ---- A chain of requests ----

  /** One request of a chain as the environment plays it: whether its URL is valid, what the check
      before it resolves, what the dial resolves (None: a kept connection is used again), and whether
      the answer redirects on. */
  datatype Hop = Hop(valid: bool, checked: Lookup, dialled: Option<Lookup>, redirects: bool)

  /** An address connected to, with the lookup it was taken from. */
  datatype Dial = Dial(ip: Bytes, lookup: Lookup)

  ghost predicate SafeDial(d: Dial, testMode: bool) {
    && AllPass(d.lookup, testMode)
    && Targets(d.lookup).value != [] && d.ip == Targets(d.lookup).value[0]
  }

  /** The connections that the requests of a chain make: one for each hop that dials, to the first
      address of its own lookup. */
  function DialsOf(hops: seq<Hop>): seq<Dial> {
    if hops == [] then []
    else DialsOf(hops[..|hops| - 1]) + DialOf(hops[|hops| - 1])
  }

  function DialOf(hop: Hop): seq<Dial> {
    match hop.dialled
    case Some(l) =>
      (match Targets(l)
       case Some(ips) => if ips == [] then [] else [Dial(ips[0], l)]
       case None => [])
    case None => []
  }

  /** The request goes out and is answered. */
  ghost predicate Goes(hop: Hop, testMode: bool) {
    && hop.valid && AllPass(hop.checked, testMode)
    && (hop.dialled.Some? ==> AllPass(hop.dialled.value, testMode) && Targets(hop.dialled.value).value != [])
  }

  predicate AllPublic(ips: seq<Bytes>) {
    forall i :: 0 <= i < |ips| ==> Public(ips[i])
  }

  predicate AllSized(ips: seq<Bytes>) {
    forall i :: 0 <= i < |ips| ==> |ips[i]| == 4 || |ips[i]| == 16
  }

  lemma AllPassInFigures(ips: seq<Bytes>)
    requires AllSized(ips)
    ensures AllPass(Resolved(ips), false) <==> AllPublic(ips)
  {
    forall i | 0 <= i < |ips| ensures Passes(ips[i], false) <==> Public(ips[i]) {
      PassesInFigures(ips[i], false);
    }
    assert Targets(Resolved(ips)) == Some(ips);
  }

  /** With resolved hosts, and outside of test mode, a request goes out exactly if its URL is valid, all
      addresses found before it are public, and so are all those found for the dial, if it takes one, of
      which there is at least one. */
  lemma GoesInFigures(valid: bool, checked: seq<Bytes>, dialled: Option<seq<Bytes>>, redirects: bool)
    requires AllSized(checked) && (dialled.Some? ==> AllSized(dialled.value))
    ensures var dial := if dialled.Some? then Some(Resolved(dialled.value)) else None;
            Goes(Hop(valid, Resolved(checked), dial, redirects), false) <==>
            valid && AllPublic(checked) && (dialled.Some? ==> dialled.value != [] && AllPublic(dialled.value))
  {
    AllPassInFigures(checked);
    if dialled.Some? {
      AllPassInFigures(dialled.value);
    }
  }

  /** The chain ends at request `n`: all up to it go out, and it is the first that does not redirect. */
  ghost predicate EndsAt(hops: seq<Hop>, n: nat, testMode: bool) {
    && n < |hops| && !hops[n].redirects
    && (forall i :: 0 <= i <= n ==> Goes(hops[i], testMode))
    && (forall i :: 0 <= i < n ==> hops[i].redirects)
  }

  /** The chain goes on through the first `n` requests. */
  ghost predicate Onward(hops: seq<Hop>, n: nat, testMode: bool) {
    n <= |hops| && forall i :: 0 <= i < n ==> Goes(hops[i], testMode) && hops[i].redirects
  }

  lemma OnwardNext(hops: seq<Hop>, n: nat, testMode: bool)
    requires Onward(hops, n, testMode) && n < |hops| && Goes(hops[n], testMode)
    ensures if hops[n].redirects then Onward(hops, n + 1, testMode) else EndsAt(hops, n, testMode)
  {
  }

  /** A chain that went on so far, and cannot go on, does not end well. */
  lemma NoEnd(hops: seq<Hop>, n: nat, testMode: bool)
    requires Onward(hops, n, testMode) && (n == |hops| || !Goes(hops[n], testMode))
    ensures forall k: nat :: !EndsAt(hops, k, testMode)
  {
  }

  lemma NoEndWithin(hops: seq<Hop>, n: nat, testMode: bool)
    requires Onward(hops, n, testMode)
    ensures forall k: nat :: k < n ==> !EndsAt(hops, k, testMode)
  {
  }

  lemma DialsOfNext(hops: seq<Hop>, n: nat)
    requires n < |hops|
    ensures DialsOf(hops[..n + 1]) == DialsOf(hops[..n]) + DialOf(hops[n])
  {
    assert hops[..n + 1][..n] == hops[..n];
  }

  /** How many of the requests take a new connection. */
  function Dialling(hops: seq<Hop>): nat {
    if hops == [] then 0 else Dialling(hops[..|hops| - 1]) + (if hops[|hops| - 1].dialled.Some? then 1 else 0)
  }

  lemma PublicDials(dials: seq<Dial>)
    requires forall i :: 0 <= i < |dials| ==> !IsBlocked(dials[i].ip)
    ensures forall i :: 0 <= i < |dials| && (|dials[i].ip| == 4 || |dials[i].ip| == 16) ==> Public(dials[i].ip)
  {
    forall i | 0 <= i < |dials| && (|dials[i].ip| == 4 || |dials[i].ip| == 16) ensures Public(dials[i].ip) {
      BlockedInFigures(dials[i].ip);
    }
  }

  /** Requests that go out make safe connections only, one for each that dials. */
  lemma {:induction false} DialsSafe(hops: seq<Hop>, testMode: bool)
    requires forall i :: 0 <= i < |hops| ==> Goes(hops[i], testMode)
    ensures forall i :: 0 <= i < |DialsOf(hops)| ==> SafeDial(DialsOf(hops)[i], testMode)
    ensures !testMode ==> forall i :: 0 <= i < |DialsOf(hops)| ==> !IsBlocked(DialsOf(hops)[i].ip)
    ensures |DialsOf(hops)| == Dialling(hops)
  {
    if hops == [] {
    } else {
      DialsSafe(hops[..|hops| - 1], testMode);
      assert Goes(hops[|hops| - 1], testMode);
    }
  }

  /** Why a request does not go out: the first check that fails. */
  ghost predicate Refused(hop: Hop, testMode: bool, error: FetchError) {
    if !hop.valid then error == InvalidUrl
    else if !AllPass(hop.checked, testMode) then error == LookupError(hop.checked)
    else hop.dialled.Some? && error == LookupError(hop.dialled.value)
  }

  /** The checks before one request, and its connection. */
  method Request(hop: Hop, testMode: bool) returns (error: Option<FetchError>, dials: seq<Dial>)
    ensures error == None <==> Goes(hop, testMode)
    ensures dials == if error == None then DialOf(hop) else []
    ensures error.Some? ==> Refused(hop, testMode, error.value)
  {
    if !hop.valid {
      return Some(InvalidUrl), [];
    }
    error := CheckTargets(hop.checked, testMode);
    if error != None || hop.dialled == None {
      return error, [];
    }
    var ip := CheckedIp(hop.dialled.value, testMode);
    if ip.Err? {
      return Some(ip.error), [];
    }
    return None, [Dial(ip.value, hop.dialled.value)];
  }

  /** The chain of requests. */
  method Follow(maxRedirects: nat, testMode: bool, hops: seq<Hop>)
    returns (error: Option<FetchError>, sent: nat, dials: seq<Dial>)
    requires maxRedirects > 0
    ensures sent <= maxRedirects && sent <= |hops| && dials == DialsOf(hops[..sent])
    ensures if error == None then sent > 0 && EndsAt(hops, sent - 1, testMode) else Onward(hops, sent, testMode)
    ensures error != None ==> forall k: nat :: k < maxRedirects ==> !EndsAt(hops, k, testMode)
    ensures error == Some(TooManyRedirects) <==>
              maxRedirects < |hops| && Onward(hops, maxRedirects, testMode)
    ensures error.Some? && error != Some(TooManyRedirects) ==>
              if sent < |hops| then Refused(hops[sent], testMode, error.value) else error == Some(Unreachable)
  {
    sent, dials := 0, [];
    while sent < |hops|
      invariant sent <= maxRedirects && Onward(hops, sent, testMode) && dials == DialsOf(hops[..sent])
    {
      if sent >= maxRedirects {
        NoEndWithin(hops, sent, testMode);
        return Some(TooManyRedirects), sent, dials;
      }
      var refused, made := Request(hops[sent], testMode);
      if refused != None {
        NoEnd(hops, sent, testMode);
        return refused, sent, dials;
      }
      DialsOfNext(hops, sent);
      OnwardNext(hops, sent, testMode);
      sent, dials := sent + 1, dials + made;
      if !hops[sent - 1].redirects {
        return None, sent, dials;
      }
    }
    NoEnd(hops, sent, testMode);
    return Some(Unreachable), sent, dials;
  }

  /** Fetch with the client's redirect policy, without a proxy. However often the answers redirect and
      whatever the resolver says at each lookup, at most `maxRedirects` requests are sent, and each
      connection goes to an address that passed the filter in the very lookup it comes from. */
  method Fetch(maxRedirects: nat, testMode: bool, hops: seq<Hop>)
    returns (error: Option<FetchError>, sent: nat, dials: seq<Dial>)
    requires maxRedirects > 0
    ensures sent <= maxRedirects
    ensures sent <= |hops| && dials == DialsOf(hops[..sent])
    ensures forall i :: 0 <= i < |dials| ==> SafeDial(dials[i], testMode)
    ensures |dials| == Dialling(hops[..sent])
    ensures !testMode ==> forall i :: 0 <= i < |dials| ==> !IsBlocked(dials[i].ip)
    ensures !testMode ==>
              forall i :: 0 <= i < |dials| && (|dials[i].ip| == 4 || |dials[i].ip| == 16) ==> Public(dials[i].ip)
    ensures error == None <==> exists n: nat :: n < maxRedirects && EndsAt(hops, n, testMode)
    ensures error == None ==> sent > 0 && EndsAt(hops, sent - 1, testMode)
    ensures error == Some(TooManyRedirects) <==>
              maxRedirects < |hops| && Onward(hops, maxRedirects, testMode)
    ensures error.Some? && error != Some(TooManyRedirects) ==>
              if sent < |hops| then Refused(hops[sent], testMode, error.value) else error == Some(Unreachable)
  {
    error, sent, dials := Follow(maxRedirects, testMode, hops);
    DialsSafe(hops[..sent], testMode);
    if !testMode {
      PublicDials(dials);
    }
  }
}
