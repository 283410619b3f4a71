/** Calls of RestoreFile of internal/quarantine/vault.go that run at the same time: no lock is held
    between the look at the record and its update. */
module RestoreRace {
  import opened Basics
  import Aes
  import Vault

  /** A call for a record: not begun, past its checks with the decrypted content, or over. */
  datatype Phase = Ready | Checked(plain: Bytes) | Over(res: Result<Bytes, Vault.VaultError>)

  datatype Call = Call(id: string, whitelist: bool, at: Phase)

  datatype State = State(vault: Vault.State, calls: seq<Call>)

  datatype Event =
    | Check(k: nat, looks: bool)
    | Update(k: nat, db: Vault.DbAnswers)
    | Elsewhere(op: Vault.Op)             // everything else that is done to the vault

  predicate Enabled(s: State, e: Event) {
    match e
    case Check(k, _) => k < |s.calls| && s.calls[k].at.Ready?
    case Update(k, _) => k < |s.calls| && s.calls[k].at.Checked?
    case Elsewhere(op) => Vault.Enabled(s.vault, op)
  }

  function Apply(c: Vault.Config, s: State, e: Event): State
    requires Enabled(s, e)
  {
    match e
    case Check(k, looks) =>
      var call := s.calls[k];
      (match Vault.CheckRestore(c, s.vault, call.id, looks)
       case Ok(plain) => s.(calls := s.calls[k := call.(at := Checked(plain))])
       case Err(e) => s.(calls := s.calls[k := call.(at := Over(Err(e)))]))
    case Update(k, db) =>
      var call := s.calls[k];
      var (t, res) := Vault.FinishRestore(s.vault, call.id, call.at.plain, call.whitelist, db);
      State(t, s.calls[k := call.(at := Over(res))])
    case Elsewhere(op) => s.(vault := Vault.Apply(c, s.vault, op))
  }

  predicate Runs(c: Vault.Config, s: State, es: seq<Event>)
    decreases |es|
  {
    es == [] || (Enabled(s, es[0]) && Runs(c, Apply(c, s, es[0]), es[1..]))
  }

  function After(c: Vault.Config, s: State, es: seq<Event>): State
    requires Runs(c, s, es)
    decreases |es|
  {
    if es == [] then s else After(c, Apply(c, s, es[0]), es[1..])
  }

  // ---- Alone ----

  /** A call that nobody interrupts is RestoreFile. */
  lemma UninterruptedIsRestoreFile(c: Vault.Config, s: State, k: nat, db: Vault.DbAnswers)
    requires k < |s.calls| && s.calls[k].at.Ready?
    ensures var t := Apply(c, s, Check(k, db.looks));
            var u := if t.calls[k].at.Checked? then Apply(c, t, Update(k, db)) else t;
            && u.calls[k].at.Over?
            && (u.vault, u.calls[k].at.res) == Vault.RestoreFile(c, s.vault, s.calls[k].id, s.calls[k].whitelist, db)
  {
  }

  // ---- At most one success ----

  predicate Succeeded(call: Call, id: string) {
    call.id == id && call.at.Over? && call.at.res.Ok?
  }

  function Successes(calls: seq<Call>, id: string): nat {
    if calls == [] then 0 else (if Succeeded(calls[0], id) then 1 else 0) + Successes(calls[1..], id)
  }

  predicate Pending(s: State, id: string, k: nat) {
    k < |s.calls| && s.calls[k].id == id && s.calls[k].at.Checked?
  }

  /** No two calls for the record are between their check and their update. */
  ghost predicate Exclusive(s: State, id: string) {
    forall j, k :: Pending(s, id, j) && Pending(s, id, k) ==> j == k
  }

  ghost predicate ExclusiveRun(c: Vault.Config, s: State, es: seq<Event>, id: string)
    requires Runs(c, s, es)
    decreases |es|
  {
    Exclusive(s, id) && (es == [] || ExclusiveRun(c, Apply(c, s, es[0]), es[1..], id))
  }

  lemma {:induction false} SuccessesUpdate(calls: seq<Call>, k: nat, x: Call, id: string)
    requires k < |calls|
    ensures Successes(calls[k := x], id) == Successes(calls, id) - (if Succeeded(calls[k], id) then 1 else 0)
                                            + (if Succeeded(x, id) then 1 else 0)
  {
    if k == 0 {
      assert calls[k := x][1..] == calls[1..];
    } else {
      assert calls[k := x][1..] == calls[1..][k - 1 := x];
      SuccessesUpdate(calls[1..], k - 1, x, id);
    }
  }

  /** A success is still possible: the record waits for it, or may still be made, or a call is past its
      checks. */
  ghost predicate Open(s: State, id: string) {
    Vault.Restorable(s.vault, id) || exists k :: Pending(s, id, k)
  }

  ghost function Left(s: State, id: string): nat {
    if Open(s, id) then 1 else 0
  }

  lemma CheckUses(c: Vault.Config, s: State, k: nat, looks: bool, id: string)
    requires Enabled(s, Check(k, looks))
    ensures var t := Apply(c, s, Check(k, looks));
            Successes(t.calls, id) == Successes(s.calls, id) && (Open(t, id) ==> Open(s, id))
  {
    var t := Apply(c, s, Check(k, looks));
    SuccessesUpdate(s.calls, k, t.calls[k], id);
    if j :| Pending(t, id, j) && j != k {
      assert Pending(s, id, j);
    }
  }

  lemma UpdateUses(c: Vault.Config, s: State, k: nat, db: Vault.DbAnswers, id: string)
    requires Enabled(s, Update(k, db)) && Exclusive(s, id)
    ensures var t := Apply(c, s, Update(k, db));
            Successes(t.calls, id) + Left(t, id) <= Successes(s.calls, id) + Left(s, id)
  {
    var t := Apply(c, s, Update(k, db));
    SuccessesUpdate(s.calls, k, t.calls[k], id);
    if s.calls[k].id == id {
      assert Pending(s, id, k);
    }
    forall j | Pending(t, id, j) ensures Pending(s, id, j) && j != k {
    }
  }

  lemma ElsewhereUses(c: Vault.Config, s: State, op: Vault.Op, id: string)
    requires Enabled(s, Elsewhere(op)) && s.vault.records.Keys <= s.vault.issued
    ensures var t := Apply(c, s, Elsewhere(op));
            t.calls == s.calls && (Open(t, id) ==> Open(s, id)) && t.vault.records.Keys <= t.vault.issued
  {
    var t := Apply(c, s, Elsewhere(op));
    forall j | Pending(t, id, j) ensures Pending(s, id, j) {
    }
  }

  /** If no two calls for a record ever overlap between check and update, at most one succeeds, whatever
      else is done to the vault in between. */
  lemma {:induction false} ExclusiveRestoresOnce(c: Vault.Config, s: State, es: seq<Event>, id: string)
    requires s.vault.records.Keys <= s.vault.issued
    requires Runs(c, s, es) && ExclusiveRun(c, s, es, id)
    ensures Successes(After(c, s, es).calls, id) <= Successes(s.calls, id) + Left(s, id)
    decreases |es|
  {
    if es == [] {
    } else {
      match es[0] {
        case Check(k, looks) => CheckUses(c, s, k, looks, id);
        case Update(k, db) => UpdateUses(c, s, k, db, id);
        case Elsewhere(op) => ElsewhereUses(c, s, op, id);
      }
      ExclusiveRestoresOnce(c, Apply(c, s, es[0]), es[1..], id);
    }
  }

  lemma TwoSteps(c: Vault.Config, s: State, a: Event, b: Event)
    requires Enabled(s, a) && Enabled(Apply(c, s, a), b)
    ensures Runs(c, s, [a, b]) && After(c, s, [a, b]) == Apply(c, Apply(c, s, a), b)
  {
    var t := Apply(c, s, a);
    var u := Apply(c, t, b);
    assert Runs(c, u, []) && After(c, u, []) == u;
    assert [b][1..] == [] && [b][0] == b;
    assert Runs(c, t, [b]) && After(c, t, [b]) == u;
    assert [a, b][1..] == [b];
  }

  /** And the condition is needed: as soon as two calls overlap there, both can succeed. */
  lemma OverlapRestoresTwice(c: Vault.Config, s: State, id: string, j: nat, k: nat) returns (es: seq<Event>)
    requires id in s.vault.records && j != k && Pending(s, id, j) && Pending(s, id, k)
    ensures Runs(c, s, es)
    ensures var t := After(c, s, es); |t.calls| == |s.calls| && Succeeded(t.calls[j], id) && Succeeded(t.calls[k], id)
  {
    var db := Vault.DbAnswers(true, true, true, true);
    var first, second := Update(j, db), Update(k, db);
    es := [first, second];
    assert Pending(Apply(c, s, first), id, k) && Succeeded(Apply(c, s, first).calls[j], id);
    TwoSteps(c, s, first, second);
  }

  /** That happens to every record that can be restored at all, when two calls for it begin together. */
  lemma CallsCanOverlap(c: Vault.Config, s: State, id: string, j: nat, k: nat) returns (es: seq<Event>)
    requires j < |s.calls| && k < |s.calls| && j != k
    requires s.calls[j].at.Ready? && s.calls[k].at.Ready? && s.calls[j].id == id == s.calls[k].id
    requires Vault.CheckRestore(c, s.vault, id, true).Ok?
    ensures Runs(c, s, es)
    ensures var t := After(c, s, es); t.vault == s.vault && Pending(t, id, j) && Pending(t, id, k)
  {
    var first, second := Check(j, true), Check(k, true);
    es := [first, second];
    assert Pending(Apply(c, s, first), id, j);
    TwoSteps(c, s, first, second);
  }
}
