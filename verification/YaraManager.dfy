/** internal/yara/manager.go: rule files, rows of yara_rules and the rules the daemon has loaded. */
module YaraManager {
  import opened Basics
  import Text
  import YaraLexer

  datatype Rule = Rule(name: string, content: string)

  /** Rule files by rule name, rows by ID, and what the daemon loaded last. */
  datatype State = State(files: map<string, string>, rows: map<string, Rule>, loaded: map<string, string>)

  datatype RuleError = Invalid | AlreadyExists | WriteFailed | DatabaseFailed | ReloadFailed | NotFound

  /** What the calls of one AddRule meet. `leftover` is what a failed write leaves of the file;
      `cleansFile` and `cleansRow` say whether the rollback calls work. */
  datatype AddFaults = AddFaults(writes: bool, leftover: Option<string>, inserts: bool, reloads: bool,
                                 cleansFile: bool, cleansRow: bool)

  /** INSERT INTO yara_rules: the ID and the name must be new. */
  predicate Insertable(s: State, id: string, name: string) {
    id !in s.rows && forall j :: j in s.rows ==> s.rows[j].name != name
  }

  /** `valid` stands for the answer of ValidateRule; `reloader` for a configured reloader. A reload
      makes the daemon read the directory, and a failing one leaves it with what it had. */
  function AddRule(s: State, reloader: bool, valid: bool, id: string, rule: Rule, f: AddFaults)
    : (State, Result<string, RuleError>)
  {
    var written := s.files[rule.name := rule.content];
    if !valid then (s, Err(Invalid))
    else if rule.name in s.files then (s, Err(AlreadyExists))
    else if !f.writes then
      (if f.leftover.Some? then s.(files := s.files[rule.name := f.leftover.value]) else s, Err(WriteFailed))
    else if !f.inserts || !Insertable(s, id, rule.name) then
      (s.(files := if f.cleansFile then written - {rule.name} else written), Err(DatabaseFailed))
    else if !reloader then (s.(files := written, rows := s.rows[id := rule]), Ok(id))
    else if f.reloads then (State(written, s.rows[id := rule], written), Ok(id))
    else
      (s.(files := if f.cleansFile then written - {rule.name} else written,
          rows := if f.cleansRow then s.rows[id := rule] - {id} else s.rows[id := rule]), Err(ReloadFailed))
  }

  function DeleteRule(s: State, reloader: bool, id: string, removes: bool, deletes: bool, reloads: bool)
    : (State, Option<RuleError>)
  {
    if id !in s.rows then (s, Some(NotFound))
    else
      var files := if removes then s.files - {s.rows[id].name} else s.files;
      var s := s.(files := files);
      if !deletes then (s, Some(DatabaseFailed))
      else
        var s := s.(rows := s.rows - {id});
        if !reloader then (s, None)
        else if reloads then (s.(loaded := files), None)
        else (s, Some(ReloadFailed))
  }

  // ---- What a call leaves alone ----

  /** The two maps agree but for one key. */
  predicate SameBut<K, V(==)>(m: map<K, V>, n: map<K, V>, key: K) {
    (forall k :: k in m && k != key ==> k in n && n[k] == m[k]) && (forall k :: k in n && k != key ==> k in m)
  }

  /** The second map is the first, from which the key is gone if it goes. */
  predicate Loses<K, V(==)>(m: map<K, V>, n: map<K, V>, key: K, goes: bool) {
    SameBut(m, n, key) && (key in n <==> key in m && !goes) && (key in n ==> n[key] == m[key])
  }

  predicate Stands(s: State, id: string, rule: Rule) {
    id in s.rows && s.rows[id] == rule && rule.name in s.files && s.files[rule.name] == rule.content
  }

  predicate InDaemon(s: State, rule: Rule) {
    rule.name in s.loaded && s.loaded[rule.name] == rule.content
  }

  /** A call of AddRule concerns one row and one file. It succeeds exactly with a valid rule of a new name
      and ID and when its calls work, and then the rule is stored, and with a reloader the daemon has it. */
  predicate AddsOnly(s: State, t: State, r: Result<string, RuleError>, reloader: bool, valid: bool, id: string,
                     rule: Rule, f: AddFaults) {
    && SameBut(s.rows, t.rows, id) && SameBut(s.files, t.files, rule.name)
    && (r.Ok? <==> && valid && rule.name !in s.files && id !in s.rows
                   && (forall j :: j in s.rows ==> s.rows[j].name != rule.name)
                   && f.writes && f.inserts && (reloader ==> f.reloads))
    && (r.Ok? ==> r == Ok(id) && Stands(t, id, rule) && (reloader ==> t.loaded == t.files))
    && (r.Err? || !reloader ==> t.loaded == s.loaded)
    && (!valid ==> r == Err(Invalid)) && (valid && rule.name in s.files ==> r == Err(AlreadyExists))
  }

  lemma AddConcernsOne(s: State, reloader: bool, valid: bool, id: string, rule: Rule, f: AddFaults)
    ensures var (t, r) := AddRule(s, reloader, valid, id, rule, f);
            AddsOnly(s, t, r, reloader, valid, id, rule, f)
  {
  }

  /** A call of DeleteRule takes the row exactly if its deletion works, and the file of that row exactly if
      its removal does; all other rows and files stay. */
  predicate DeletesOnly(s: State, t: State, error: Option<RuleError>, reloader: bool, id: string, removes: bool,
                        deletes: bool, reloads: bool) {
    if id !in s.rows then t == s && error == Some(NotFound)
    else
      && Loses(s.rows, t.rows, id, deletes) && Loses(s.files, t.files, s.rows[id].name, removes)
      && (error.None? <==> deletes && (reloader ==> reloads))
      && t.loaded == if error.None? && reloader then t.files else s.loaded
  }

  lemma DeleteConcernsOne(s: State, reloader: bool, id: string, removes: bool, deletes: bool, reloads: bool)
    ensures var (t, error) := DeleteRule(s, reloader, id, removes, deletes, reloads);
            DeletesOnly(s, t, error, reloader, id, removes, deletes, reloads)
  {
  }

  // ---- Files and rows agree ----

  /** Every row has its file with its content, and every file has its one row. */
  ghost predicate Bijection(s: State) {
    && (forall id :: id in s.rows ==> s.rows[id].name in s.files && s.files[s.rows[id].name] == s.rows[id].content)
    && (forall i, j :: i in s.rows && j in s.rows && s.rows[i].name == s.rows[j].name ==> i == j)
    && (forall name :: name in s.files ==> exists id :: id in s.rows && s.rows[id].name == name)
  }

  /** The daemon has every rule on disk, as it is on disk. */
  predicate AllLoaded(s: State) {
    forall name :: name in s.files ==> name in s.loaded && s.loaded[name] == s.files[name]
  }

  /** The stores agree with each other and with the daemon. */
  ghost predicate InOrder(s: State) {
    Bijection(s) && AllLoaded(s)
  }

  lemma FreshNameInsertable(s: State, id: string, name: string)
    requires Bijection(s) && name !in s.files && id !in s.rows
    ensures Insertable(s, id, name)
  {
  }

  lemma AddedBijection(s: State, id: string, rule: Rule)
    requires Bijection(s) && rule.name !in s.files && id !in s.rows
    ensures Bijection(State(s.files[rule.name := rule.content], s.rows[id := rule], s.loaded))
  {
    var t := State(s.files[rule.name := rule.content], s.rows[id := rule], s.loaded);
    forall name | name in t.files ensures exists j :: j in t.rows && t.rows[j].name == name {
      if name == rule.name {
        assert t.rows[id].name == name;
      } else {
        var j :| j in s.rows && s.rows[j].name == name;
        assert t.rows[j].name == name;
      }
    }
  }

  lemma RemovedBijection(s: State, id: string)
    requires Bijection(s) && id in s.rows
    ensures Bijection(State(s.files - {s.rows[id].name}, s.rows - {id}, s.loaded))
  {
    var t := State(s.files - {s.rows[id].name}, s.rows - {id}, s.loaded);
    forall name | name in t.files ensures exists j :: j in t.rows && t.rows[j].name == name {
      var j :| j in s.rows && s.rows[j].name == name;
      assert t.rows[j].name == name;
    }
  }

  /** A call of AddRule that fails restores the exact prior state if and only if a failed write
      leaves nothing and the rollback calls it makes work. */
  lemma FailedAddRestores(s: State, reloader: bool, valid: bool, id: string, rule: Rule, f: AddFaults)
    requires Bijection(s) && id !in s.rows
    requires AddRule(s, reloader, valid, id, rule, f).1.Err?
    ensures AddRule(s, reloader, valid, id, rule, f).0 == s <==>
            || !valid || rule.name in s.files
            || (!f.writes && f.leftover.None?)
            || (f.writes && f.cleansFile && (f.inserts ==> f.cleansRow))
  {
    if valid && rule.name !in s.files {
      FreshNameInsertable(s, id, rule.name);
      var written := s.files[rule.name := rule.content];
      assert written - {rule.name} == s.files;
      assert rule.name in written && id in s.rows[id := rule];
      assert s.rows[id := rule] - {id} == s.rows;
    }
  }

  lemma OrphanFile(s: State, t: State, name: string)
    requires Bijection(s) && name !in s.files && name in t.files && t.rows == s.rows
    ensures !Bijection(t)
  {
  }

  /** Adding keeps files and rows in bijection exactly when no half-done work stays behind: the two
      rollback calls after a failed reload must both work or both fail. */
  lemma AddKeepsBijection(s: State, reloader: bool, valid: bool, id: string, rule: Rule, f: AddFaults)
    requires Bijection(s) && id !in s.rows
    ensures Bijection(AddRule(s, reloader, valid, id, rule, f).0) <==>
            || !valid || rule.name in s.files
            || (if !f.writes then f.leftover.None?
                else if !f.inserts then f.cleansFile
                else !reloader || f.reloads || f.cleansFile == f.cleansRow)
  {
    var t := AddRule(s, reloader, valid, id, rule, f).0;
    if valid && rule.name !in s.files {
      FreshNameInsertable(s, id, rule.name);
      var written := s.files[rule.name := rule.content];
      assert written - {rule.name} == s.files && s.rows[id := rule] - {id} == s.rows;
      if rule.name in t.files && t.rows == s.rows {
        OrphanFile(s, t, rule.name);
      } else if rule.name !in t.files && id in t.rows {
        assert t.rows[id].name == rule.name;
      } else if rule.name in t.files {
        AddedBijection(s, id, rule);
      }
    }
  }

  /** What the daemon has loaded does not matter. */
  lemma SameBijection(s: State, t: State)
    requires t.files == s.files && t.rows == s.rows
    ensures Bijection(t) <==> Bijection(s)
  {
  }

  lemma FilelessRow(s: State, t: State, id: string)
    requires id in s.rows && t.rows == s.rows && t.files == s.files - {s.rows[id].name}
    ensures !Bijection(t)
  {
    assert t.rows[id].name !in t.files;
  }

  lemma RowlessFile(s: State, t: State, id: string)
    requires Bijection(s) && id in s.rows && t.rows == s.rows - {id} && t.files == s.files
    ensures !Bijection(t)
  {
    var name := s.rows[id].name;
    assert name in t.files && forall j :: j in t.rows ==> t.rows[j].name != name;
  }

  /** Deleting keeps the bijection exactly when the file and the row go or stay together. */
  lemma DeleteKeepsBijection(s: State, reloader: bool, id: string, removes: bool, deletes: bool, reloads: bool)
    requires Bijection(s)
    ensures Bijection(DeleteRule(s, reloader, id, removes, deletes, reloads).0) <==>
            id !in s.rows || removes == deletes
  {
    if id in s.rows {
      var t := DeleteRule(s, reloader, id, removes, deletes, reloads).0;
      if deletes && !removes {
        RowlessFile(s, t, id);
      } else if removes && !deletes {
        FilelessRow(s, t, id);
      } else if removes {
        RemovedBijection(s, id);
        SameBijection(State(s.files - {s.rows[id].name}, s.rows - {id}, s.loaded), t);
      } else {
        SameBijection(s, t);
      }
    }
  }

  // ---- Runs ----

  datatype Op =
    | Add(valid: bool, id: string, rule: Rule, f: AddFaults)
    | Delete(id: string, removes: bool, deletes: bool, reloads: bool)

  /** IDs are new, a failed write leaves no file, and what takes away rows and files works. */
  predicate Orderly(s: State, op: Op) {
    match op
    case Add(_, id, _, f) => id !in s.rows && f.leftover.None? && f.cleansFile && f.cleansRow
    case Delete(_, removes, deletes, _) => removes && deletes
  }

  function Apply(s: State, op: Op): State {
    match op
    case Add(valid, id, rule, f) => AddRule(s, true, valid, id, rule, f).0
    case Delete(id, removes, deletes, reloads) => DeleteRule(s, true, id, removes, deletes, reloads).0
  }

  predicate Succeeds(s: State, op: Op) {
    match op
    case Add(valid, id, rule, f) => AddRule(s, true, valid, id, rule, f).1.Ok?
    case Delete(id, removes, deletes, reloads) => DeleteRule(s, true, id, removes, deletes, reloads).1.None?
  }

  predicate Runs(s: State, ops: seq<Op>)
    decreases |ops|
  {
    ops == [] || (Orderly(s, ops[0]) && Runs(Apply(s, ops[0]), ops[1..]))
  }

  function After(s: State, ops: seq<Op>): State
    decreases |ops|
  {
    if ops == [] then s else After(Apply(s, ops[0]), ops[1..])
  }

  lemma OpKeeps(s: State, op: Op)
    requires InOrder(s) && Orderly(s, op)
    ensures InOrder(Apply(s, op))
    ensures Succeeds(s, op) ==> Apply(s, op).loaded == Apply(s, op).files
    ensures op.Add? && !Succeeds(s, op) ==> Apply(s, op) == s
  {
    match op {
      case Add(valid, id, rule, f) =>
        AddKeepsBijection(s, true, valid, id, rule, f);
        if !Succeeds(s, op) {
          FailedAddRestores(s, true, valid, id, rule, f);
        }
      case Delete(id, removes, deletes, reloads) => DeleteKeepsBijection(s, true, id, removes, deletes, reloads);
    }
  }

  /** Over every run with failing writes, inserts and reloads the two stores agree, every file is
      loaded, and after a call without error the daemon has loaded exactly the files. */
  lemma {:induction false} StoresAgree(s: State, ops: seq<Op>)
    requires InOrder(s) && Runs(s, ops)
    ensures InOrder(After(s, ops))
    decreases |ops|
  {
    if ops == [] {
    } else {
      OpKeeps(s, ops[0]);
      StoresAgree(Apply(s, ops[0]), ops[1..]);
    }
  }

  /** No two rows share a name: the table allows nothing else. */
  predicate NamesDiffer(s: State) {
    forall i, j :: i in s.rows && j in s.rows && s.rows[i].name == s.rows[j].name ==> i == j
  }

  lemma OpSpares(s: State, op: Op, id: string, rule: Rule)
    requires NamesDiffer(s) && Stands(s, id, rule) && InDaemon(s, rule) && !(op.Delete? && op.id == id)
    ensures var t := Apply(s, op); NamesDiffer(t) && Stands(t, id, rule) && InDaemon(t, rule)
  {
    match op {
      case Add(valid, other, added, f) => AddConcernsOne(s, true, valid, other, added, f);
      case Delete(other, removes, deletes, reloads) => DeleteConcernsOne(s, true, other, removes, deletes, reloads);
    }
  }

  predicate Deletes(ops: seq<Op>, id: string) {
    exists i :: 0 <= i < |ops| && ops[i].Delete? && ops[i].id == id
  }

  lemma {:induction false} RuleStays(s: State, ops: seq<Op>, id: string, rule: Rule)
    requires NamesDiffer(s) && Stands(s, id, rule) && InDaemon(s, rule) && !Deletes(ops, id)
    ensures var t := After(s, ops); Stands(t, id, rule) && InDaemon(t, rule)
    decreases |ops|
  {
    if ops == [] {
    } else {
      assert forall i :: 0 <= i < |ops[1..]| ==> ops[1..][i] == ops[i + 1];
      OpSpares(s, ops[0], id, rule);
      RuleStays(Apply(s, ops[0]), ops[1..], id, rule);
    }
  }

  /** A rule that was added without error is there with its row and its file, and the daemon has it, after
      whatever calls for other rules, however these fail. */
  lemma RuleSurvives(s: State, valid: bool, id: string, rule: Rule, f: AddFaults, ops: seq<Op>)
    requires NamesDiffer(s) && Succeeds(s, Add(valid, id, rule, f)) && !Deletes(ops, id)
    ensures var t := After(Apply(s, Add(valid, id, rule, f)), ops); Stands(t, id, rule) && InDaemon(t, rule)
  {
    AddConcernsOne(s, true, valid, id, rule, f);
    RuleStays(Apply(s, Add(valid, id, rule, f)), ops, id, rule);
  }

  /** A deletion without error, whose file removal works too, leaves neither row nor file, and the daemon
      forgets the rule. */
  lemma RuleGoes(s: State, id: string, deletes: bool, reloads: bool)
    requires Bijection(s) && id in s.rows && Succeeds(s, Delete(id, true, deletes, reloads))
    ensures var t, name := Apply(s, Delete(id, true, deletes, reloads)), s.rows[id].name;
            && id !in t.rows && name !in t.files && name !in t.loaded
            && (forall j :: j in t.rows ==> t.rows[j].name != name)
  {
    DeleteConcernsOne(s, true, id, true, deletes, reloads);
  }

  lemma AddInOrder(s: State, valid: bool, id: string, rule: Rule, f: AddFaults)
    ensures InOrder(s) && Orderly(s, Add(true, id, rule, f)) ==>
              var (t, r) := AddRule(s, true, valid, id, rule, f);
              InOrder(t) && (if r.Ok? then t.loaded == t.files else t == s)
  {
    if InOrder(s) && Orderly(s, Add(true, id, rule, f)) {
      OpKeeps(s, Add(valid, id, rule, f));
    }
  }

  // ---- The manager ----

  predicate Balanced(content: string) {
    YaraLexer.InCode(YaraLexer.Lex(content), '{') == YaraLexer.InCode(YaraLexer.Lex(content), '}') > 0
  }

  class Manager {
    const hasReloader: bool
    var files: map<string, string>
    var rows: map<string, Rule>
    var loaded: map<string, string>

    ghost function View(): State reads this {
      State(files, rows, loaded)
    }

    constructor (hasReloader: bool)
      ensures View() == State(map[], map[], map[]) && this.hasReloader == hasReloader
    {
      this.hasReloader, files, rows, loaded := hasReloader, map[], map[], map[];
    }

    /** `named` stands for the checks of ValidateRule that come before the braces. */
    method Add(named: bool, id: string, rule: Rule, f: AddFaults) returns (r: Result<string, RuleError>)
      modifies this
      ensures (View(), r) ==
              AddRule(old(View()), hasReloader,
                      named && Balanced(Text.TrimSpace(rule.content)), id, rule, f)
      ensures InOrder(old(View())) && Orderly(old(View()), Op.Add(true, id, rule, f)) && hasReloader ==>
                InOrder(View()) && (if r.Ok? then loaded == files else View() == old(View()))
      ensures var valid := named && Balanced(Text.TrimSpace(rule.content));
              AddsOnly(old(View()), View(), r, hasReloader, valid, id, rule, f)
    {
      var balanced := YaraLexer.BracesBalanced(Text.TrimSpace(rule.content));
      AddConcernsOne(View(), hasReloader, named && balanced, id, rule, f);
      AddInOrder(View(), named && balanced, id, rule, f);
      if !named || !balanced {
        return Err(Invalid);
      }
      if rule.name in files {
        return Err(AlreadyExists);
      }
      if !f.writes {
        if f.leftover.Some? {
          files := files[rule.name := f.leftover.value];
        }
        return Err(WriteFailed);
      }
      files := files[rule.name := rule.content];
      if !f.inserts || id in rows || (exists j :: j in rows && rows[j].name == rule.name) {
        if f.cleansFile {
          files := files - {rule.name};
        }
        return Err(DatabaseFailed);
      }
      rows := rows[id := rule];
      if hasReloader {
        if !f.reloads {
          if f.cleansFile {
            files := files - {rule.name};
          }
          if f.cleansRow {
            rows := rows - {id};
          }
          return Err(ReloadFailed);
        }
        loaded := files;
      }
      return Ok(id);
    }

    method Delete(id: string, removes: bool, deletes: bool, reloads: bool) returns (error: Option<RuleError>)
      modifies this
      ensures (View(), error) == DeleteRule(old(View()), hasReloader, id, removes, deletes, reloads)
      ensures InOrder(old(View())) && removes && deletes && hasReloader ==>
                InOrder(View()) && (error.None? ==> loaded == files && id !in rows)
      ensures DeletesOnly(old(View()), View(), error, hasReloader, id, removes, deletes, reloads)
    {
      DeleteConcernsOne(View(), hasReloader, id, removes, deletes, reloads);
      if InOrder(View()) && removes && deletes && hasReloader {
        OpKeeps(View(), Op.Delete(id, removes, deletes, reloads));
      }
      if id !in rows {
        return Some(NotFound);
      }
      if removes {
        files := files - {rows[id].name};
      }
      if !deletes {
        return Some(DatabaseFailed);
      }
      rows := rows - {id};
      if hasReloader {
        if !reloads {
          return Some(ReloadFailed);
        }
        loaded := files;
      }
      return None;
    }
  }
}
