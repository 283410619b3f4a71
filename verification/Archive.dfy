/** internal/scanner/archive.go: totals in int64. */
module Archive {
  import Bits

  const INT64_LIMIT: int := 0x8000_0000_0000_0000
  const UINT64_LIMIT: int := 0x1_0000_0000_0000_0000
  const RATIO_LIMIT := 100
  const RATIO_FLOOR := 10 * 1024 * 1024

  /** A header of the central directory; both sizes are uint64. */
  datatype Entry = Entry(flags: nat, compressed: int, uncompressed: int)

  datatype Reason = NoReason | ExceededMaxFiles | ExceededMaxSize | SuspiciousRatio

  datatype Report = Report(isBomb: bool, reason: Reason, isEncrypted: bool, files: nat, total: int)

  /** Conversion to int64, and what an int64 addition leaves. */
  function Wrap(x: int): int {
    (x + INT64_LIMIT) % UINT64_LIMIT - INT64_LIMIT
  }

  predicate IsUint64(x: int) {
    0 <= x < UINT64_LIMIT
  }

  predicate Encrypted(e: Entry) {
    e.flags % 2 == 1
  }

  predicate Suspicious(e: Entry) {
    e.compressed > 0 && e.uncompressed / e.compressed > RATIO_LIMIT && e.uncompressed > RATIO_FLOOR
  }

  lemma {:induction false} AndZero(a: nat, width: nat)
    ensures Bits.AndBits(a, 0, width) == 0
  {
    if width > 0 {
      AndZero(a / 2, width - 1);
    }
  }

  /** Encryption is the lowest of the 16 flag bits. */
  lemma EncryptedIsLowestBit(e: Entry)
    ensures Encrypted(e) <==> Bits.AndBits(e.flags, 0x1, 16) != 0
  {
    AndZero(e.flags / 2, 15);
    assert Bits.AndBits(e.flags, 1, 16) == 2 * Bits.AndBits(e.flags / 2, 0, 15) + (if e.flags % 2 == 1 then 1 else 0);
  }

  /** Suspicious is what is larger than ten MiB and unpacks to at least 101 times its packed size. */
  lemma SuspiciousInFigures(e: Entry)
    requires 0 <= e.compressed && 0 <= e.uncompressed
    ensures Suspicious(e) <==>
            e.compressed > 0 && e.uncompressed >= 101 * e.compressed && e.uncompressed > 10_485_760
  {
    if e.compressed > 0 {
      var ratio := e.uncompressed / e.compressed;
      assert e.uncompressed == e.compressed * ratio + e.uncompressed % e.compressed;
      if ratio >= 101 {
        assert e.compressed * ratio >= e.compressed * 101;
      } else {
        assert e.compressed * ratio <= e.compressed * 100;
      }
    }
  }

  function Total(entries: seq<Entry>): int {
    if entries == [] then 0 else Total(entries[..|entries| - 1]) + entries[|entries| - 1].uncompressed
  }

  predicate AnyEncrypted(entries: seq<Entry>) {
    exists i :: 0 <= i < |entries| && Encrypted(entries[i])
  }

  /** What the inspection is for, in exact arithmetic. */
  predicate WithinLimits(entries: seq<Entry>, maxFiles: int, maxBytes: int) {
    && |entries| <= maxFiles
    && Total(entries) <= maxBytes
    && forall i :: 0 <= i < |entries| ==> !Suspicious(entries[i])
  }

  /** No sum that is formed can leave int64. */
  predicate NoOverflow(entries: seq<Entry>, maxBytes: int) {
    && 0 <= maxBytes
    && forall i :: 0 <= i < |entries| ==>
         IsUint64(entries[i].uncompressed) && maxBytes + entries[i].uncompressed < INT64_LIMIT
  }

  lemma {:induction false} TotalGrows(entries: seq<Entry>, n: nat)
    requires n <= |entries| && forall i :: 0 <= i < |entries| ==> entries[i].uncompressed >= 0
    ensures 0 <= Total(entries[..n]) <= Total(entries)
    decreases |entries|
  {
    var last := |entries| - 1;
    if n == |entries| {
      assert entries[..n] == entries;
      if n > 0 {
        TotalGrows(entries[..last], last);
        assert entries[..last][..last] == entries[..last];
      }
    } else {
      TotalGrows(entries[..last], n);
      assert entries[..last][..n] == entries[..n];
    }
  }

  // ---- The inspection ----

  /** After some entries: still going with this total, or stopped for a reason. */
  datatype Progress = Going(total: int, encrypted: bool) | Stopped(reason: Reason, total: int, encrypted: bool)

  function Step(p: Progress, e: Entry, maxBytes: int): Progress
    requires p.Going?
  {
    var encrypted, total := p.encrypted || Encrypted(e), Wrap(p.total + Wrap(e.uncompressed));
    if total > maxBytes then Stopped(ExceededMaxSize, total, encrypted)
    else if Suspicious(e) then Stopped(SuspiciousRatio, 0, encrypted)
    else Going(total, encrypted)
  }

  function Scan(entries: seq<Entry>, maxBytes: int): Progress {
    if entries == [] then Going(0, false)
    else
      var p := Scan(entries[..|entries| - 1], maxBytes);
      if p.Going? then Step(p, entries[|entries| - 1], maxBytes) else p
  }

  function MaxBytes(maxExtractMb: int): int {
    Wrap(maxExtractMb * 1024 * 1024)
  }

  function Inspect(entries: seq<Entry>, maxFiles: int, maxExtractMb: int): Report {
    if |entries| > maxFiles then Report(true, ExceededMaxFiles, false, |entries|, 0)
    else
      match Scan(entries, MaxBytes(maxExtractMb))
      case Going(total, encrypted) => Report(false, NoReason, encrypted, |entries|, total)
      case Stopped(reason, total, encrypted) => Report(true, reason, encrypted, |entries|, total)
  }

  lemma {:induction false} StoppedStays(entries: seq<Entry>, n: nat, maxBytes: int)
    requires n <= |entries| && Scan(entries[..n], maxBytes).Stopped?
    ensures Scan(entries, maxBytes) == Scan(entries[..n], maxBytes)
    decreases |entries|
  {
    if n == |entries| {
      assert entries[..n] == entries;
    } else {
      assert entries[..|entries| - 1][..n] == entries[..n];
      StoppedStays(entries[..|entries| - 1], n, maxBytes);
    }
  }

  lemma AnyEncryptedAppend(entries: seq<Entry>, e: Entry)
    ensures AnyEncrypted(entries + [e]) <==> AnyEncrypted(entries) || Encrypted(e)
  {
    var all := entries + [e];
    assert all[|entries|] == e && forall i :: 0 <= i < |entries| ==> all[i] == entries[i];
  }

  lemma WrapFits(x: int)
    requires -INT64_LIMIT <= x < INT64_LIMIT
    ensures Wrap(x) == x
  {
  }

  lemma WrapOnce(x: int)
    requires INT64_LIMIT <= x < INT64_LIMIT + UINT64_LIMIT
    ensures Wrap(x) == x - UINT64_LIMIT
  {
  }

  /** One entry, when its size can be added without overflow. */
  lemma StepIsExact(p: Progress, e: Entry, maxBytes: int)
    requires p.Going? && 0 <= p.total <= maxBytes && 0 <= e.uncompressed && p.total + e.uncompressed < INT64_LIMIT
    ensures Step(p, e, maxBytes).Going? <==> p.total + e.uncompressed <= maxBytes && !Suspicious(e)
    ensures Step(p, e, maxBytes).Going? ==>
              Step(p, e, maxBytes) == Going(p.total + e.uncompressed, p.encrypted || Encrypted(e))
  {
    WrapFits(e.uncompressed);
    WrapFits(p.total + e.uncompressed);
  }

  predicate NoneSuspicious(entries: seq<Entry>) {
    forall i :: 0 <= i < |entries| ==> !Suspicious(entries[i])
  }

  /** Without overflow the scan goes through exactly when total and ratios are within limits, and then
      it has the exact total and knows exactly whether something is encrypted. */
  lemma {:induction false} ScanIsExact(entries: seq<Entry>, maxBytes: int)
    requires NoOverflow(entries, maxBytes)
    ensures Scan(entries, maxBytes).Going? <==> Total(entries) <= maxBytes && NoneSuspicious(entries)
    ensures Scan(entries, maxBytes).Going? ==>
              Scan(entries, maxBytes) == Going(Total(entries), AnyEncrypted(entries)) && Total(entries) >= 0
  {
    if entries == [] {
    } else {
      var n := |entries| - 1;
      var front, e := entries[..n], entries[n];
      assert entries == front + [e];
      ScanIsExact(front, maxBytes);
      AnyEncryptedAppend(front, e);
      TotalGrows(entries, n);
      assert NoneSuspicious(entries) <==> NoneSuspicious(front) && !Suspicious(e);
      if Scan(front, maxBytes).Going? {
        StepIsExact(Scan(front, maxBytes), e, maxBytes);
      }
    }
  }

  /** Without overflow an archive is no bomb exactly when it is within all limits, and then the
      reported total and encryption are exact. */
  lemma InspectIsExact(entries: seq<Entry>, maxFiles: int, maxExtractMb: int)
    requires NoOverflow(entries, MaxBytes(maxExtractMb))
    ensures var r := Inspect(entries, maxFiles, maxExtractMb);
            && (!r.isBomb <==> WithinLimits(entries, maxFiles, MaxBytes(maxExtractMb)))
            && (!r.isBomb ==> r.total == Total(entries) && (r.isEncrypted <==> AnyEncrypted(entries)))
  {
    ScanIsExact(entries, MaxBytes(maxExtractMb));
  }

  // ---- Without a bound on the sizes ----

  /** An exact total that the wrapped sum reports as too large. */
  predicate Noticed(total: int, maxBytes: int) {
    Wrap(total) > maxBytes
  }

  predicate NoticedAt(entries: seq<Entry>, k: nat, maxBytes: int)
    requires k <= |entries|
  {
    Noticed(Total(entries[..k]), maxBytes)
  }

  /** No total on the way is noticed. */
  predicate Unnoticed(entries: seq<Entry>, maxBytes: int) {
    forall k: nat :: 0 < k <= |entries| ==> !NoticedAt(entries, k, maxBytes)
  }

  lemma WrapTwice(a: int, b: int)
    ensures Wrap(Wrap(a) + Wrap(b)) == Wrap(a + b)
  {
    WrapModulo(a);
    WrapModulo(b);
    WrapShift(a + b, Wrap(a) + Wrap(b), (a + INT64_LIMIT) / UINT64_LIMIT + (b + INT64_LIMIT) / UINT64_LIMIT);
  }

  lemma WrapModulo(x: int)
    ensures Wrap(x) == x - (x + INT64_LIMIT) / UINT64_LIMIT * UINT64_LIMIT
  {
  }

  lemma WrapShift(x: int, y: int, k: int)
    requires x == y + k * UINT64_LIMIT
    ensures Wrap(x) == Wrap(y)
  {
    WrapModulo(x);
    WrapModulo(y);
  }

  /** Noticed are the totals between the limit and 2^63, and those a multiple of 2^64 away from them. */
  lemma NoticedWindow(total: int, maxBytes: int)
    requires 0 <= maxBytes < INT64_LIMIT
    ensures Noticed(total, maxBytes) <==> maxBytes < total % UINT64_LIMIT < INT64_LIMIT
  {
    var k := total / UINT64_LIMIT;
    WrapShift(total, total % UINT64_LIMIT, k);
    if total % UINT64_LIMIT < INT64_LIMIT {
      WrapFits(total % UINT64_LIMIT);
    } else {
      WrapOnce(total % UINT64_LIMIT);
    }
  }

  lemma NoticedBefore(entries: seq<Entry>, last: Entry, k: nat, maxBytes: int)
    requires k <= |entries|
    ensures NoticedAt(entries + [last], k, maxBytes) <==> NoticedAt(entries, k, maxBytes)
  {
    assert (entries + [last])[..k] == entries[..k];
  }

  lemma UnnoticedAppend(entries: seq<Entry>, last: Entry, maxBytes: int)
    ensures Unnoticed(entries + [last], maxBytes) <==>
            Unnoticed(entries, maxBytes) && !Noticed(Total(entries + [last]), maxBytes)
  {
    var all := entries + [last];
    assert all[..|all|] == all;
    assert NoticedAt(all, |all|, maxBytes) <==> Noticed(Total(all), maxBytes);
    forall k: nat | k <= |entries| ensures NoticedAt(all, k, maxBytes) <==> NoticedAt(entries, k, maxBytes) {
      NoticedBefore(entries, last, k, maxBytes);
    }
  }

  lemma NoneSuspiciousAppend(entries: seq<Entry>, last: Entry)
    ensures NoneSuspicious(entries + [last]) <==> NoneSuspicious(entries) && !Suspicious(last)
  {
    var all := entries + [last];
    assert all[|entries|] == last && forall i :: 0 <= i < |entries| ==> all[i] == entries[i];
  }

  /** For all archives, overflow or not: the scan goes through exactly if nothing is suspicious and no
      total on the way is noticed, and then it has the wrapped total. */
  lemma {:induction false} ScanUnbounded(entries: seq<Entry>, maxBytes: int)
    ensures Scan(entries, maxBytes).Going? <==> NoneSuspicious(entries) && Unnoticed(entries, maxBytes)
    ensures Scan(entries, maxBytes).Going? ==>
              Scan(entries, maxBytes) == Going(Wrap(Total(entries)), AnyEncrypted(entries))
  {
    if entries == [] {
      WrapFits(0);
    } else {
      var n := |entries| - 1;
      var front, e := entries[..n], entries[n];
      assert entries == front + [e];
      ScanUnbounded(front, maxBytes);
      UnnoticedAppend(front, e, maxBytes);
      NoneSuspiciousAppend(front, e);
      AnyEncryptedAppend(front, e);
      WrapTwice(Total(front), e.uncompressed);
    }
  }

  /** The scan gets through the first `n` entries, and no further. */
  predicate StopsAt(entries: seq<Entry>, n: nat, maxBytes: int) {
    && n < |entries| && NoneSuspicious(entries[..n]) && Unnoticed(entries[..n], maxBytes)
    && (NoticedAt(entries, n + 1, maxBytes) || Suspicious(entries[n]))
  }

  /** For all archives, the report about one that is stopped at some entry: the size is looked at before
      the ratio, encryption is known up to there, and a total is told with the size only. */
  lemma BombReport(entries: seq<Entry>, n: nat, maxFiles: int, maxExtractMb: int)
    requires StopsAt(entries, n, MaxBytes(maxExtractMb)) && |entries| <= maxFiles
    ensures Inspect(entries, maxFiles, maxExtractMb) ==
            var encrypted := AnyEncrypted(entries[..n + 1]);
            if NoticedAt(entries, n + 1, MaxBytes(maxExtractMb)) then
              Report(true, ExceededMaxSize, encrypted, |entries|, Wrap(Total(entries[..n + 1])))
            else Report(true, SuspiciousRatio, encrypted, |entries|, 0)
  {
    var limit, upTo := MaxBytes(maxExtractMb), entries[..n + 1];
    ScanUnbounded(entries[..n], limit);
    assert upTo == entries[..n] + [entries[n]] && upTo[..n] == entries[..n];
    AnyEncryptedAppend(entries[..n], entries[n]);
    WrapTwice(Total(entries[..n]), entries[n].uncompressed);
    StoppedStays(entries, n + 1, limit);
  }

  lemma TooManyReport(entries: seq<Entry>, maxFiles: int, maxExtractMb: int)
    requires |entries| > maxFiles
    ensures Inspect(entries, maxFiles, maxExtractMb) == Report(true, ExceededMaxFiles, false, |entries|, 0)
  {
  }

  /** Every archive of few enough entries is either let through or stopped at some entry. */
  lemma {:induction false} StopsSomewhere(entries: seq<Entry>, maxBytes: int) returns (n: nat)
    ensures Scan(entries, maxBytes).Stopped? ==> StopsAt(entries, n, maxBytes)
  {
    n := 0;
    if entries != [] {
      var front := entries[..|entries| - 1];
      ScanUnbounded(front, maxBytes);
      ScanUnbounded(entries, maxBytes);
      if Scan(front, maxBytes).Stopped? {
        n := StopsSomewhere(front, maxBytes);
        assert front[..n] == entries[..n] && front[..n + 1] == entries[..n + 1];
      } else {
        n := |entries| - 1;
        assert entries == front + [entries[n]];
        UnnoticedAppend(front, entries[n], maxBytes);
        NoneSuspiciousAppend(front, entries[n]);
        assert entries[..n + 1] == entries;
      }
    }
  }

  lemma LimitInBytes(maxExtractMb: int)
    requires 0 <= maxExtractMb < 0x800_0000_0000
    ensures MaxBytes(maxExtractMb) == maxExtractMb * 1_048_576
  {
    WrapFits(maxExtractMb * 1024 * 1024);
  }

  lemma SmallIsUnnoticed(entries: seq<Entry>, maxBytes: int)
    requires 0 <= maxBytes < INT64_LIMIT && Total(entries) <= maxBytes
    requires forall i :: 0 <= i < |entries| ==> IsUint64(entries[i].uncompressed)
    ensures Unnoticed(entries, maxBytes)
  {
    forall k: nat | 0 < k <= |entries| ensures !NoticedAt(entries, k, maxBytes) {
      TotalGrows(entries, k);
      WrapFits(Total(entries[..k]));
    }
  }

  /** For all archives the verdict is "no bomb" exactly with few enough entries, none suspicious, and no
      total on the way noticed. It is the intended verdict if and only if the archive is over some limit
      in a way that shows: too many entries, a suspicious one, or a noticed total, or its total is
      within the limit. */
  lemma InspectUnbounded(entries: seq<Entry>, maxFiles: int, maxExtractMb: int)
    requires forall i :: 0 <= i < |entries| ==> IsUint64(entries[i].uncompressed)
    ensures var r, limit := Inspect(entries, maxFiles, maxExtractMb), MaxBytes(maxExtractMb);
            && (!r.isBomb <==> |entries| <= maxFiles && NoneSuspicious(entries) && Unnoticed(entries, limit))
            && (!r.isBomb ==> r.total == Wrap(Total(entries)) && (r.isEncrypted <==> AnyEncrypted(entries)))
            && (0 <= limit ==> ((!r.isBomb <==> WithinLimits(entries, maxFiles, limit)) <==>
                || |entries| > maxFiles || !NoneSuspicious(entries)
                || Total(entries) <= limit || !Unnoticed(entries, limit)))
  {
    var limit := MaxBytes(maxExtractMb);
    ScanUnbounded(entries, limit);
    if 0 <= limit && Total(entries) <= limit {
      SmallIsUnnoticed(entries, limit);
    }
  }

  /** In particular, the entry that takes the exact total over the limit is noticed right away if and
      only if that total still fits int64. */
  lemma CrossingNoticed(entries: seq<Entry>, maxBytes: int)
    requires entries != [] && 0 <= maxBytes < INT64_LIMIT && NoneSuspicious(entries)
    requires forall i :: 0 <= i < |entries| ==> IsUint64(entries[i].uncompressed)
    requires Total(entries[..|entries| - 1]) <= maxBytes < Total(entries)
    ensures Scan(entries, maxBytes).Stopped? <==> Total(entries) < INT64_LIMIT
  {
    var n := |entries| - 1;
    var front := entries[..n];
    assert entries == front + [entries[n]];
    SmallIsUnnoticed(front, maxBytes);
    UnnoticedAppend(front, entries[n], maxBytes);
    ScanUnbounded(entries, maxBytes);
    NoticedWindow(Total(entries), maxBytes);
  }

  /** Two entries of 2^63 bytes pass for an empty archive. */
  lemma OverflowPasses(e: Entry)
    requires e == Entry(0, 0, INT64_LIMIT)
    ensures var r := Inspect([e, e], 10, 250);
            !r.isBomb && r.total == 0 && Total([e, e]) == UINT64_LIMIT > MaxBytes(250)
  {
    assert [e, e][..1] == [e] && [e][..0] == [];
    assert Total([e]) == INT64_LIMIT && Total([e, e]) == UINT64_LIMIT;
    WrapFits(250 * 1024 * 1024);
    assert [e, e][..2] == [e, e];
    WrapFits(-INT64_LIMIT);
    WrapOnce(INT64_LIMIT);
    ScanUnbounded([e, e], MaxBytes(250));
    WrapShift(UINT64_LIMIT, 0, 1);
    WrapFits(0);
  }

  /** The loop over the central directory, with its early returns. */
  method InspectZip(entries: seq<Entry>, maxFiles: int, maxExtractMb: int) returns (r: Report)
    ensures r == Inspect(entries, maxFiles, maxExtractMb)
  {
    r := Report(false, NoReason, false, |entries|, 0);
    if |entries| > maxFiles {
      return r.(isBomb := true, reason := ExceededMaxFiles);
    }
    var maxBytes := Wrap(maxExtractMb * 1024 * 1024);
    var total := 0;
    for i := 0 to |entries|
      invariant r == Report(false, NoReason, r.isEncrypted, |entries|, 0)
      invariant Scan(entries[..i], maxBytes) == Going(total, r.isEncrypted)
    {
      var e := entries[i];
      assert entries[..i + 1][..i] == entries[..i] && entries[..i + 1][i] == e;
      if Encrypted(e) {
        r := r.(isEncrypted := true);
      }
      total := Wrap(total + Wrap(e.uncompressed));
      if total > maxBytes {
        StoppedStays(entries, i + 1, maxBytes);
        return r.(isBomb := true, reason := ExceededMaxSize, total := total);
      }
      if e.compressed > 0 {
        var ratio := e.uncompressed / e.compressed;
        if ratio > RATIO_LIMIT && e.uncompressed > RATIO_FLOOR {
          StoppedStays(entries, i + 1, maxBytes);
          return r.(isBomb := true, reason := SuspiciousRatio);
        }
      }
    }
    assert entries[..|entries|] == entries;
    return r.(total := total);
  }
}
