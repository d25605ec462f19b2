/**
 * The counsel read model: one row a (tenant, job), written by transactions that lock the key, read the row,
 * merge one snapshot into it and write the whole row back.
 */
module ReadModel {
  import opened Prelude
  import Agents

  datatype Key = Key(tenant: string, job: string)

  /** A view snapshot, or JSON that does not have its shape. */
  datatype ViewSnapshot =
    | View(jobId: string, status: string, executionId: Option<string>, body: string)
    | NotAView(json: string)

  /** A draft snapshot, or JSON that does not have its shape. */
  datatype DraftSnapshot = Draft(body: string) | NotADraft(json: string)

  datatype Fault = NothingToSave | EmptyKey | MalformedView | MalformedDraft | NoSnapshot | WrongJob | UnknownStatus

  datatype Columns = Columns(
    tenant: string, job: string, status: string, executionId: Option<string>,
    view: Option<ViewSnapshot>, draft: Option<DraftSnapshot>)

  datatype Row = Row(columns: Columns, updatedAt: int)

  /** What a caller asks to store: a snapshot on one axis, or on both. */
  datatype Save = Save(key: Key, view: Option<ViewSnapshot>, draft: Option<DraftSnapshot>)

  const PHASES := {"queued", "leased", "running", "paused", "succeeded", "failed", "cancelled"}

  predicate WellFormedView(view: ViewSnapshot) {
    view.View? && view.jobId != "" && view.status != ""
  }

  /** The columns derived from the key and the two snapshots: status and execution. */
  function Projection(key: Key, view: Option<ViewSnapshot>, draft: Option<DraftSnapshot>)
    : Result<(string, Option<string>), Fault>
  {
    if key.tenant == "" || key.job == "" then Err(EmptyKey)
    else if view.Some? && !WellFormedView(view.value) then Err(MalformedView)
    else if draft.Some? && !draft.value.Draft? then Err(MalformedDraft)
    else if view.None? && draft.None? then Err(NoSnapshot)
    else if view.None? then Ok(("succeeded", None))
    else if view.value.jobId != key.job then Err(WrongJob)
    else if view.value.status !in PHASES then Err(UnknownStatus)
    else Ok((view.value.status, view.value.executionId))
  }

  function Or<T>(first: Option<T>, second: Option<T>): Option<T> {
    if first.Some? then first else second
  }

  /** `merge_snapshots`: the other axis keeps what was read, and the derived columns follow the merged pair. */
  function Merge(save: Save, view: Option<ViewSnapshot>, draft: Option<DraftSnapshot>): Result<Columns, Fault> {
    if save.view.None? && save.draft.None? then Err(NothingToSave)
    else
      var newView := Or(save.view, view);
      var newDraft := Or(save.draft, draft);
      match Projection(save.key, newView, newDraft)
      case Err(fault) => Err(fault)
      case Ok(derived) => Ok(Columns(save.key.tenant, save.key.job, derived.0, derived.1, newView, newDraft))
  }

  // ---- The table, and one save on its own ----

  function KeyOf(row: Row): Key {
    Key(row.columns.tenant, row.columns.job)
  }

  /** The position of the row with this key; the position plays the part of the primary key. */
  function Find(table: seq<Row>, key: Key): (r: Option<nat>)
    ensures r.Some? ==> r.value < |table| && KeyOf(table[r.value]) == key
    ensures r.None? ==> forall row <- table :: KeyOf(row) != key
  {
    if table == [] then None
    else if KeyOf(table[|table| - 1]) == key then Some(|table| - 1)
    else Find(table[..|table| - 1], key)
  }

  /** `load`: the two snapshots stored for a key. */
  function Load(table: seq<Row>, key: Key): (Option<ViewSnapshot>, Option<DraftSnapshot>) {
    match Find(table, key)
    case None => (None, None)
    case Some(i) => (table[i].columns.view, table[i].columns.draft)
  }

  function UpdatedAt(table: seq<Row>, key: Key): Option<int> {
    match Find(table, key)
    case None => None
    case Some(i) => Some(table[i].updatedAt)
  }

  function Put(table: seq<Row>, at: Option<nat>, row: Row): seq<Row>
    requires at.Some? ==> at.value < |table|
  {
    if at.None? then table + [row] else table[at.value := row]
  }

  /** A save with the table to itself. */
  function SaveTo(table: seq<Row>, save: Save, now: int): Result<seq<Row>, Fault> {
    var (view, draft) := Load(table, save.key);
    match Merge(save, view, draft)
    case Err(fault) => Err(fault)
    case Ok(columns) => Ok(Put(table, Find(table, save.key), Row(columns, now)))
  }

  predicate UniqueKeys(table: seq<Row>) {
    forall i, j :: 0 <= i < j < |table| ==> KeyOf(table[i]) != KeyOf(table[j])
  }

  /** The row holds a snapshot and its derived columns are the projection of what it holds. */
  predicate Honest(row: Row) {
    && (row.columns.view.Some? || row.columns.draft.Some?)
    && Projection(KeyOf(row), row.columns.view, row.columns.draft)
       == Ok((row.columns.status, row.columns.executionId))
  }

  predicate GoodTable(table: seq<Row>) {
    UniqueKeys(table) && forall row <- table :: Honest(row)
  }

  /** What can be told of a save without looking at the table. */
  predicate Savable(save: Save) {
    && (save.view.Some? || save.draft.Some?)
    && save.key.tenant != "" && save.key.job != ""
    && (save.view.Some? ==>
          WellFormedView(save.view.value) && save.view.value.jobId == save.key.job && save.view.value.status in PHASES)
    && (save.draft.Some? ==> save.draft.value.Draft?)
  }

  lemma FindIsOnly(table: seq<Row>, key: Key, i: nat)
    requires UniqueKeys(table) && i < |table| && KeyOf(table[i]) == key
    ensures Find(table, key) == Some(i)
  {
    var found := Find(table, key).value;
    assert KeyOf(table[found]) == KeyOf(table[i]);
  }

  /** Writing one key leaves what is found under the others, and keeps keys unique. */
  lemma PutAffectsOneKey(table: seq<Row>, row: Row, other: Key)
    requires UniqueKeys(table)
    ensures var written := Put(table, Find(table, KeyOf(row)), row);
      && UniqueKeys(written)
      && Find(written, KeyOf(row)).Some?
      && written[Find(written, KeyOf(row)).value] == row
      && (other != KeyOf(row) ==>
            && Find(written, other) == Find(table, other)
            && (Find(table, other).Some? ==> written[Find(table, other).value] == table[Find(table, other).value]))
  {
    var at := Find(table, KeyOf(row));
    var written := Put(table, at, row);
    FindIsOnly(written, KeyOf(row), if at.Some? then at.value else |table|);
    if other != KeyOf(row) {
      if Find(table, other).Some? {
        FindIsOnly(written, other, Find(table, other).value);
      } else {
        assert forall r <- written :: r == row || r in table;
      }
    }
  }

  /** Main result, one save: it succeeds exactly when the save itself is sound, and leaves a good table. */
  lemma SaveSucceedsExactly(table: seq<Row>, save: Save, now: int)
    requires GoodTable(table)
    ensures SaveTo(table, save, now).Ok? <==> Savable(save)
    ensures SaveTo(table, save, now).Ok? ==>
              var written := SaveTo(table, save, now).value;
              && GoodTable(written)
              && UpdatedAt(written, save.key) == Some(now)
              && Load(written, save.key)
                 == (Or(save.view, Load(table, save.key).0), Or(save.draft, Load(table, save.key).1))
  {
    var at := Find(table, save.key);
    if at.Some? { assert Honest(table[at.value]); }
    if SaveTo(table, save, now).Ok? {
      var columns := Merge(save, Load(table, save.key).0, Load(table, save.key).1).value;
      var row := Row(columns, now);
      PutAffectsOneKey(table, row, save.key);
      forall r <- SaveTo(table, save, now).value ensures Honest(r) {
        if r != row { assert r in table; }
      }
    }
  }

  lemma SaveLeavesOthers(table: seq<Row>, save: Save, now: int, other: Key)
    requires GoodTable(table) && SaveTo(table, save, now).Ok? && other != save.key
    ensures Find(SaveTo(table, save, now).value, other) == Find(table, other)
    ensures Load(SaveTo(table, save, now).value, other) == Load(table, other)
    ensures UpdatedAt(SaveTo(table, save, now).value, other) == UpdatedAt(table, other)
  {
    var columns := Merge(save, Load(table, save.key).0, Load(table, save.key).1).value;
    PutAffectsOneKey(table, Row(columns, now), other);
  }

  /** What a row of a good table tells: with a view, the status and execution of that view, which is of the row's own
      job and in a phase a job can be in; without one, that the job succeeded, and no execution. */
  lemma RowsTell(table: seq<Row>, i: nat)
    requires GoodTable(table) && i < |table|
    ensures var row := table[i].columns;
      match row.view
      case Some(View(jobId, status, execution, _)) =>
        && row.status == status && row.executionId == execution && jobId == row.job
        && exists phase :: status == PhaseName(phase)
      case Some(NotAView(_)) => false
      case None => row.status == "succeeded" && row.executionId.None? && row.draft.Some? && row.draft.value.Draft?
    ensures table[i].columns.tenant != "" && table[i].columns.job != ""
  {
    assert Honest(table[i]);
    if table[i].columns.view.Some? { PhasesAreNamed(table[i].columns.status); }
  }

  /** The names under which the phases of a job are stored. */
  function PhaseName(phase: Agents.JobPhase): string {
    match phase
    case Queued => "queued"
    case Leased => "leased"
    case Running => "running"
    case Paused => "paused"
    case Succeeded => "succeeded"
    case Failed => "failed"
    case Cancelled => "cancelled"
  }

  lemma PhasesAreNamed(status: string)
    ensures status in PHASES <==> exists phase :: status == PhaseName(phase)
  {
    if status in PHASES {
      assert PhaseName(Agents.Queued) == "queued" && PhaseName(Agents.Leased) == "leased";
      assert PhaseName(Agents.Running) == "running" && PhaseName(Agents.Paused) == "paused";
      assert PhaseName(Agents.Succeeded) == "succeeded" && PhaseName(Agents.Failed) == "failed";
      assert PhaseName(Agents.Cancelled) == "cancelled";
    }
  }

  /** The first thing wrong with a save, whatever is stored. */
  ghost function OwnFault(save: Save): Option<Fault> {
    if save.view.None? && save.draft.None? then Some(NothingToSave)
    else if save.key.tenant == "" || save.key.job == "" then Some(EmptyKey)
    else if save.view.Some?
            && (save.view.value.NotAView? || save.view.value.jobId == "" || save.view.value.status == "") then
      Some(MalformedView)
    else if save.draft.Some? && save.draft.value.NotADraft? then Some(MalformedDraft)
    else if save.view.Some? && save.view.value.jobId != save.key.job then Some(WrongJob)
    else if save.view.Some? && forall phase :: save.view.value.status != PhaseName(phase) then Some(UnknownStatus)
    else None
  }

  /** On a good table a save is refused for the first fault of its own, never for what is stored, and is accepted if it
      has none. */
  lemma RefusedForOwnFault(table: seq<Row>, save: Save, now: int)
    requires GoodTable(table)
    ensures match SaveTo(table, save, now)
            case Ok(_) => OwnFault(save).None?
            case Err(fault) => OwnFault(save) == Some(fault)
  {
    var at := Find(table, save.key);
    if at.Some? { assert Honest(table[at.value]); }
    if save.view.Some? && save.view.value.View? { PhasesAreNamed(save.view.value.status); }
    hide PhaseName;
  }

  // ---- Saves one after the other ----

  /** How a transaction ended. */
  datatype Outcome =
    | Committed(save: Save, at: int)
    | Refused(save: Save, fault: Fault)
    | KeyConflict(save: Save)
    | RolledBack(save: Save)

  /** The table after the committed saves of a history, each with the table to itself. */
  function Serial(history: seq<Outcome>): seq<Row> {
    if history == [] then []
    else
      var before := Serial(history[..|history| - 1]);
      var last := history[|history| - 1];
      if last.Committed? && SaveTo(before, last.save, last.at).Ok? then SaveTo(before, last.save, last.at).value
      else before
  }

  predicate Fair(outcome: Outcome) {
    match outcome
    case Committed(save, _) => Savable(save)
    case Refused(save, _) => !Savable(save)
    case KeyConflict(_) => false
    case RolledBack(_) => true
  }

  /** Every outcome is what the save deserved: only sound saves commit, only unsound ones are refused, and none
      conflicts. */
  predicate Deserved(history: seq<Outcome>) {
    forall k :: 0 <= k < |history| ==> Fair(history[k])
  }

  function LastView(history: seq<Outcome>, key: Key): Option<ViewSnapshot> {
    if history == [] then None
    else
      var last := history[|history| - 1];
      if last.Committed? && last.save.key == key && last.save.view.Some? then last.save.view
      else LastView(history[..|history| - 1], key)
  }

  function LastDraft(history: seq<Outcome>, key: Key): Option<DraftSnapshot> {
    if history == [] then None
    else
      var last := history[|history| - 1];
      if last.Committed? && last.save.key == key && last.save.draft.Some? then last.save.draft
      else LastDraft(history[..|history| - 1], key)
  }

  function LastTime(history: seq<Outcome>, key: Key): Option<int> {
    if history == [] then None
    else
      var last := history[|history| - 1];
      if last.Committed? && last.save.key == key then Some(last.at) else LastTime(history[..|history| - 1], key)
  }

  /** Main result, serial: the table is good and each axis of each key holds its last committed save. */
  lemma {:induction false} SerialKeepsLast(history: seq<Outcome>, key: Key)
    requires Deserved(history)
    ensures GoodTable(Serial(history))
    ensures Load(Serial(history), key) == (LastView(history, key), LastDraft(history, key))
    ensures UpdatedAt(Serial(history), key) == LastTime(history, key)
  {
    if history != [] {
      var front := history[..|history| - 1];
      var last := history[|history| - 1];
      SerialKeepsLast(front, key);
      if last.Committed? {
        SaveSucceedsExactly(Serial(front), last.save, last.at);
        if key != last.save.key { SaveLeavesOthers(Serial(front), last.save, last.at, key); }
      }
    }
  }

  // ---- Transactions, interleaved in any order ----

  datatype Phase =
    | Waiting
    | Locked
    | HasRead(at: Option<nat>, view: Option<ViewSnapshot>, draft: Option<DraftSnapshot>)
    | HasMerged(at: Option<nat>, columns: Columns, now: int)

  datatype Txn = Txn(save: Save, phase: Phase)

  /** The committed table, the advisory locks and who holds them, the open transactions, and how the others ended. */
  datatype Database = Database(
    table: seq<Row>, locks: map<int, nat>, open: map<nat, Txn>, history: seq<Outcome>)

  /** One step of one transaction, or its loss. */
  datatype Event =
    | Begin(txn: nat, save: Save)
    | Lock(txn: nat)
    | Read(txn: nat)
    | MergeRead(txn: nat, now: int)
    | Commit(txn: nat)
    | Abort(txn: nat)

  /** The name from which the advisory lock of a key is made. */
  function LockName(key: Key): string {
    "counsel_draft_view\U{1F}" + key.tenant + "\U{1F}" + key.job
  }

  /** The advisory lock of a key: the hash of its name. Different keys may share a lock. */
  function LockOf(hash: string -> int, key: Key): int {
    hash(LockName(key))
  }

  lemma SplitsOnce(a: string, b: string, restA: string, restB: string, mark: char)
    requires mark !in a && mark !in b && a + [mark] + restA == b + [mark] + restB
    ensures a == b && restA == restB
  {
    var whole := a + [mark] + restA;
    assert whole[|a|] == mark && forall i :: 0 <= i < |a| ==> whole[i] == a[i] && a[i] in a;
    assert whole[|b|] == mark && forall i :: 0 <= i < |b| ==> whole[i] == b[i] && b[i] in b;
    assert |a| == |b|;
    assert a == whole[..|a|] && b == (b + [mark] + restB)[..|b|];
    assert restA == whole[|a| + 1..] && restB == (b + [mark] + restB)[|b| + 1..];
  }

  /** Names of locks are told apart from others by how they begin, and from each other unless a tenant holds the unit
      separator: then two keys share a lock only if the hash makes them. */
  lemma LockNamesDiffer(a: Key, b: Key)
    requires '\U{1F}' !in a.tenant && '\U{1F}' !in b.tenant
    ensures LockName(a) == LockName(b) ==> a == b
    ensures "counsel_draft_view\U{1F}" <= LockName(a)
  {
    var prefix, mark := "counsel_draft_view\U{1F}", '\U{1F}';
    var restA, restB := a.tenant + [mark] + a.job, b.tenant + [mark] + b.job;
    assert LockName(a) == prefix + restA && LockName(b) == prefix + restB;
    if LockName(a) == LockName(b) {
      assert restA == LockName(a)[|prefix|..] && restB == LockName(b)[|prefix|..];
      SplitsOnce(a.tenant, b.tenant, a.job, b.job, mark);
    }
  }

  /** The transaction ends: its locks go with it. */
  function End(db: Database, txn: nat, outcome: Outcome): Database {
    db.(locks := map name | name in db.locks && db.locks[name] != txn :: db.locks[name],
        open := db.open - {txn},
        history := db.history + [outcome])
  }

  function Advance(db: Database, txn: nat, phase: Phase): Database
    requires txn in db.open
  {
    db.(open := db.open[txn := Txn(db.open[txn].save, phase)])
  }

  function CommitTxn(db: Database, txn: nat): Database
    requires txn in db.open && db.open[txn].phase.HasMerged?
  {
    var save := db.open[txn].save;
    var HasMerged(at, columns, now) := db.open[txn].phase;
    var row := Row(columns, now);
    if at.None? then
      if Find(db.table, KeyOf(row)).Some? then End(db, txn, KeyConflict(save))
      else End(db.(table := db.table + [row]), txn, Committed(save, now))
    else if at.value < |db.table| then
      End(db.(table := db.table[at.value := row]), txn, Committed(save, now))
    else End(db, txn, RolledBack(save))
  }

  /** The database after an event; an event that cannot happen now leaves it as it is. */
  function Next(hash: string -> int, db: Database, event: Event): Database {
    match event
    case Begin(txn, save) =>
      if txn in db.open || (save.view.None? && save.draft.None?) then db
      else db.(open := db.open[txn := Txn(save, Waiting)])
    case Lock(txn) =>
      if txn !in db.open || !db.open[txn].phase.Waiting? || LockOf(hash, db.open[txn].save.key) in db.locks then db
      else Advance(db, txn, Locked).(locks := db.locks[LockOf(hash, db.open[txn].save.key) := txn])
    case Read(txn) =>
      if txn !in db.open || !db.open[txn].phase.Locked? then db
      else
        var key := db.open[txn].save.key;
        var (view, draft) := Load(db.table, key);
        Advance(db, txn, HasRead(Find(db.table, key), view, draft))
    case MergeRead(txn, now) =>
      if txn !in db.open || !db.open[txn].phase.HasRead? then db
      else (
        var Txn(save, HasRead(at, view, draft)) := db.open[txn];
        match Merge(save, view, draft)
        case Err(fault) => End(db, txn, Refused(save, fault))
        case Ok(columns) => Advance(db, txn, HasMerged(at, columns, now))
      )
    case Commit(txn) =>
      if txn !in db.open || !db.open[txn].phase.HasMerged? then db else CommitTxn(db, txn)
    case Abort(txn) =>
      if txn !in db.open then db else End(db, txn, RolledBack(db.open[txn].save))
  }

  /** The database after any interleaving of events, from an empty table. */
  function After(hash: string -> int, events: seq<Event>): Database {
    if events == [] then Database([], map[], map[], [])
    else Next(hash, After(hash, events[..|events| - 1]), events[|events| - 1])
  }

  predicate HoldsLock(hash: string -> int, db: Database, txn: nat)
    requires txn in db.open
  {
    var name := LockOf(hash, db.open[txn].save.key);
    name in db.locks && db.locks[name] == txn
  }

  /** What an open transaction remembers is still what the table says. */
  predicate UpToDate(table: seq<Row>, txn: Txn) {
    && (txn.save.view.Some? || txn.save.draft.Some?)
    && match txn.phase
       case Waiting => true
       case Locked => true
       case HasRead(at, view, draft) =>
         at == Find(table, txn.save.key) && (view, draft) == Load(table, txn.save.key)
       case HasMerged(at, columns, _) =>
         && at == Find(table, txn.save.key)
         && Merge(txn.save, Load(table, txn.save.key).0, Load(table, txn.save.key).1) == Ok(columns)
  }

  predicate Consistent(hash: string -> int, db: Database) {
    && GoodTable(db.table)
    && Deserved(db.history)
    && db.table == Serial(db.history)
    && (forall txn <- db.open ::
          && UpToDate(db.table, db.open[txn])
          && (!db.open[txn].phase.Waiting? ==> HoldsLock(hash, db, txn)))
    && (forall name <- db.locks ::
          && db.locks[name] in db.open
          && !db.open[db.locks[name]].phase.Waiting?
          && LockOf(hash, db.open[db.locks[name]].save.key) == name)
  }

  lemma SerialGrows(history: seq<Outcome>, outcome: Outcome)
    ensures Serial(history + [outcome])
         == if outcome.Committed? && SaveTo(Serial(history), outcome.save, outcome.at).Ok?
            then SaveTo(Serial(history), outcome.save, outcome.at).value else Serial(history)
  {
    assert (history + [outcome])[..|history|] == history;
  }

  lemma EndKeepsConsistent(hash: string -> int, db: Database, txn: nat, outcome: Outcome)
    requires Consistent(hash, db) && txn in db.open
    requires !outcome.Committed? && Fair(outcome)
    ensures Consistent(hash, End(db, txn, outcome))
  {
    SerialGrows(db.history, outcome);
    var after := End(db, txn, outcome);
    forall other <- after.open
      ensures UpToDate(after.table, after.open[other])
      ensures !after.open[other].phase.Waiting? ==> HoldsLock(hash, after, other)
    {
      assert UpToDate(db.table, db.open[other]);
    }
  }

  /** Two transactions past their lock never work on the same key. */
  lemma OneWorkerPerKey(hash: string -> int, db: Database, a: nat, b: nat)
    requires Consistent(hash, db) && a in db.open && b in db.open && a != b
    requires !db.open[a].phase.Waiting? && !db.open[b].phase.Waiting?
    ensures db.open[a].save.key != db.open[b].save.key
  {
    assert HoldsLock(hash, db, a) && HoldsLock(hash, db, b);
  }

  /** A commit is the save run on its own; it hits no unique key. */
  lemma CommitIsSave(hash: string -> int, db: Database, txn: nat)
    requires Consistent(hash, db) && txn in db.open && db.open[txn].phase.HasMerged?
    ensures var save := db.open[txn].save;
      var now := db.open[txn].phase.now;
      && SaveTo(db.table, save, now).Ok?
      && CommitTxn(db, txn)
         == End(db.(table := SaveTo(db.table, save, now).value), txn, Committed(save, now))
  {
    hide GoodTable, Deserved, Serial, Projection;
    assert UpToDate(db.table, db.open[txn]);
  }

  lemma OthersStayUpToDate(hash: string -> int, db: Database, txn: nat, other: nat, now: int)
    requires Consistent(hash, db) && txn in db.open && other in db.open && txn != other
    requires !db.open[txn].phase.Waiting?
    requires SaveTo(db.table, db.open[txn].save, now).Ok?
    ensures UpToDate(SaveTo(db.table, db.open[txn].save, now).value, db.open[other])
  {
    hide GoodTable, Deserved, Serial, Merge, SaveTo, Find, Load;
    assert UpToDate(db.table, db.open[other]);
    if !db.open[other].phase.Waiting? {
      OneWorkerPerKey(hash, db, txn, other);
      SaveLeavesOthers(db.table, db.open[txn].save, now, db.open[other].save.key);
    }
  }

  lemma CommitKeepsConsistent(hash: string -> int, db: Database, txn: nat)
    requires Consistent(hash, db) && txn in db.open && db.open[txn].phase.HasMerged?
    ensures Consistent(hash, CommitTxn(db, txn))
  {
    hide Merge, SaveTo, Find, Load, GoodTable, Serial, CommitTxn, UpToDate, Savable;
    var save := db.open[txn].save;
    var now := db.open[txn].phase.now;
    CommitIsSave(hash, db, txn);
    SaveSucceedsExactly(db.table, save, now);
    SerialGrows(db.history, Committed(save, now));
    forall other <- db.open | other != txn
      ensures UpToDate(SaveTo(db.table, save, now).value, db.open[other])
    {
      OthersStayUpToDate(hash, db, txn, other, now);
    }
  }

  lemma BeginKeepsConsistent(hash: string -> int, db: Database, txn: nat, save: Save)
    requires Consistent(hash, db)
    ensures Consistent(hash, Next(hash, db, Begin(txn, save)))
  {
    hide GoodTable, Deserved, Serial, Merge, Find, Load;
  }

  lemma LockKeepsConsistent(hash: string -> int, db: Database, txn: nat)
    requires Consistent(hash, db)
    ensures Consistent(hash, Next(hash, db, Lock(txn)))
  {
    hide GoodTable, Deserved, Serial, Merge, Find, Load, LockOf;
  }

  lemma ReadKeepsConsistent(hash: string -> int, db: Database, txn: nat)
    requires Consistent(hash, db)
    ensures Consistent(hash, Next(hash, db, Read(txn)))
  {
    hide GoodTable, Deserved, Serial, Merge, Find, Load, LockOf;
  }

  lemma MergeKeepsConsistent(hash: string -> int, db: Database, txn: nat, now: int)
    requires Consistent(hash, db)
    ensures Consistent(hash, Next(hash, db, MergeRead(txn, now)))
  {
    hide GoodTable, Deserved, Serial, Merge, Find, Load, LockOf, Savable;
    if txn in db.open && db.open[txn].phase.HasRead? {
      assert UpToDate(db.table, db.open[txn]);
      SaveSucceedsExactly(db.table, db.open[txn].save, now);
      var phase := db.open[txn].phase;
      var merged := Merge(db.open[txn].save, phase.view, phase.draft);
      if merged.Err? { EndKeepsConsistent(hash, db, txn, Refused(db.open[txn].save, merged.error)); }
    }
  }

  lemma NextKeepsConsistent(hash: string -> int, db: Database, event: Event)
    requires Consistent(hash, db)
    ensures Consistent(hash, Next(hash, db, event))
  {
    hide Consistent, CommitTxn, Merge, Find, Load, LockOf;
    match event {
      case Begin(txn, save) => BeginKeepsConsistent(hash, db, txn, save);
      case Lock(txn) => LockKeepsConsistent(hash, db, txn);
      case Read(txn) => ReadKeepsConsistent(hash, db, txn);
      case MergeRead(txn, now) => MergeKeepsConsistent(hash, db, txn, now);
      case Commit(txn) =>
        if txn in db.open && db.open[txn].phase.HasMerged? { CommitKeepsConsistent(hash, db, txn); }
      case Abort(txn) =>
        if txn in db.open { EndKeepsConsistent(hash, db, txn, RolledBack(db.open[txn].save)); }
    }
  }

  lemma {:induction false} AlwaysConsistent(hash: string -> int, events: seq<Event>)
    ensures Consistent(hash, After(hash, events))
  {
    if events != [] {
      AlwaysConsistent(hash, events[..|events| - 1]);
      NextKeepsConsistent(hash, After(hash, events[..|events| - 1]), events[|events| - 1]);
    }
  }

  /**
   * Main result: however transactions interleave, and whatever the lock hash, the committed table is that
   * of the committed saves run one by one in commit order; no save is lost, none fails on the unique key,
   * and a save is refused only if it is unsound in itself.
   */
  lemma InterleavedIsSerial(hash: string -> int, events: seq<Event>, key: Key)
    ensures var db := After(hash, events);
      && db.table == Serial(db.history)
      && GoodTable(db.table)
      && Deserved(db.history)
      && Load(db.table, key) == (LastView(db.history, key), LastDraft(db.history, key))
      && UpdatedAt(db.table, key) == LastTime(db.history, key)
  {
    AlwaysConsistent(hash, events);
    SerialKeepsLast(After(hash, events).history, key);
  }

  // ---- No deadlock ----

  function Play(hash: string -> int, db: Database, events: seq<Event>): Database
    decreases |events|
  {
    if events == [] then db else Play(hash, Next(hash, db, events[0]), events[1..])
  }

  lemma {:induction false} PlayConcat(hash: string -> int, db: Database, first: seq<Event>, second: seq<Event>)
    ensures Play(hash, db, first + second) == Play(hash, Play(hash, db, first), second)
    decreases |first|
  {
    if first == [] {
      assert first + second == second;
    } else {
      assert (first + second)[1..] == first[1..] + second;
      PlayConcat(hash, Next(hash, db, first[0]), first[1..], second);
    }
  }

  /** A transaction's own steps after its lock, with neither new transactions nor losses. */
  predicate OwnSteps(events: seq<Event>) {
    forall event <- events :: !event.Begin? && !event.Abort?
  }

  function StepsLeft(phase: Phase): nat {
    match phase
    case Waiting => 4
    case Locked => 3
    case HasRead(_, _, _) => 2
    case HasMerged(_, _, _) => 1
  }

  function OwnStep(txn: nat, phase: Phase, now: int): Event {
    match phase
    case Waiting => Lock(txn)
    case Locked => Read(txn)
    case HasRead(_, _, _) => MergeRead(txn, now)
    case HasMerged(_, _, _) => Commit(txn)
  }

  lemma OwnStepAdvances(hash: string -> int, db: Database, txn: nat, now: int)
    requires Consistent(hash, db) && txn in db.open
    requires db.open[txn].phase.Waiting? ==> LockOf(hash, db.open[txn].save.key) !in db.locks
    ensures var after := Next(hash, db, OwnStep(txn, db.open[txn].phase, now));
      && Consistent(hash, after)
      && after.open - {txn} == db.open - {txn}
      && (txn in after.open ==>
            !after.open[txn].phase.Waiting? && StepsLeft(after.open[txn].phase) < StepsLeft(db.open[txn].phase))
  {
    hide Consistent, Merge, Find, Load;
    NextKeepsConsistent(hash, db, OwnStep(txn, db.open[txn].phase, now));
  }

  lemma {:induction false} CanEnd(hash: string -> int, db: Database, txn: nat, now: int) returns (events: seq<Event>)
    requires Consistent(hash, db) && txn in db.open
    requires db.open[txn].phase.Waiting? ==> LockOf(hash, db.open[txn].save.key) !in db.locks
    ensures OwnSteps(events)
    ensures Consistent(hash, Play(hash, db, events)) && Play(hash, db, events).open == db.open - {txn}
    decreases StepsLeft(db.open[txn].phase)
  {
    hide Consistent, Next, LockOf;
    var event := OwnStep(txn, db.open[txn].phase, now);
    var after := Next(hash, db, event);
    OwnStepAdvances(hash, db, txn, now);
    if txn in after.open {
      var rest := CanEnd(hash, after, txn, now);
      events := [event] + rest;
    } else {
      events := [event];
      assert after.open == after.open - {txn};
      assert Play(hash, after, []) == after;
    }
  }

  /** A transaction that nothing keeps waiting, if any is open. */
  lemma SomeoneIsFree(hash: string -> int, db: Database) returns (txn: nat)
    requires Consistent(hash, db) && db.open != map[]
    ensures txn in db.open
    ensures db.open[txn].phase.Waiting? ==> LockOf(hash, db.open[txn].save.key) !in db.locks
  {
    if name :| name in db.locks { txn := db.locks[name]; } else { txn :| txn in db.open; }
  }

  /** Main result: there is no deadlock; the open transactions can all run to their end, none of them aborted. */
  lemma {:induction false} NoDeadlock(hash: string -> int, db: Database, now: int) returns (events: seq<Event>)
    requires Consistent(hash, db)
    ensures OwnSteps(events)
    ensures Play(hash, db, events).open == map[]
    decreases |db.open|
  {
    if db.open == map[] {
      events := [];
    } else {
      hide Consistent, Next, LockOf;
      var txn := SomeoneIsFree(hash, db);
      var first := CanEnd(hash, db, txn, now);
      assert |db.open - {txn}| < |db.open| by {
        assert (db.open - {txn}).Keys == db.open.Keys - {txn};
        assert |(db.open - {txn}).Keys| == |db.open - {txn}| && |db.open.Keys| == |db.open|;
      }
      var rest := NoDeadlock(hash, Play(hash, db, first), now);
      events := first + rest;
      PlayConcat(hash, db, first, rest);
    }
  }

  // ---- The store ----

  class CounselDraftViewStore {
    var rows: seq<Row>

    constructor ()
      ensures rows == []
    {
      rows := [];
    }

    method LoadSnapshots(key: Key) returns (view: Option<ViewSnapshot>, draft: Option<DraftSnapshot>)
      ensures (view, draft) == Load(rows, key)
      ensures forall row <- rows :: UniqueKeys(rows) && KeyOf(row) == key ==>
                                      view == row.columns.view && draft == row.columns.draft
      ensures (forall row <- rows :: KeyOf(row) != key) ==> view.None? && draft.None?
    {
      forall i | 0 <= i < |rows| && UniqueKeys(rows) && KeyOf(rows[i]) == key
        ensures Find(rows, key) == Some(i)
      {
        FindIsOnly(rows, key, i);
      }
      var found := Find(rows, key);
      if found.None? { return None, None; }
      return rows[found.value].columns.view, rows[found.value].columns.draft;
    }

    /** A whole transaction under the lock of its key: read, merge, then set the fields of the row or add one. */
    method SaveSnapshots(save: Save, now: int) returns (fault: Option<Fault>)
      modifies this
      ensures match SaveTo(old(rows), save, now)
              case Ok(table) => rows == table && fault == None
              case Err(e) => rows == old(rows) && fault == Some(e)
      ensures GoodTable(old(rows)) ==> GoodTable(rows) && (fault.None? <==> Savable(save))
    {
      ghost var before := rows;
      if GoodTable(before) { SaveSucceedsExactly(before, save, now); }
      if save.view.None? && save.draft.None? { return Some(NothingToSave); }
      var found := Find(rows, save.key);
      var view, draft := None, None;
      if found.Some? {
        view, draft := rows[found.value].columns.view, rows[found.value].columns.draft;
      }
      var merged := Merge(save, view, draft);
      if merged.Err? { return Some(merged.error); }
      if found.None? {
        rows := rows + [Row(merged.value, now)];
      } else {
        rows := rows[found.value := rows[found.value].(columns := merged.value, updatedAt := now)];
      }
      fault := None;
    }
  }
}
