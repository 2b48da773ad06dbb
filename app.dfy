/** The task store of src/App.tsx: the loader that repairs the saved list, the four handlers
    (add, toggle, edit, remove) with their validation and confirmation, the filtered view and
    the counters. The confirmation answer, the clock and the fresh id are parameters. */
module App {
  import opened Wrappers
  import opened Text
  import opened Types
  import TaskList
  import TaskInput
  import TaskItem

  // ---------------------------------------------------------------------------------------
  // Loading and repairing the saved list
  // ---------------------------------------------------------------------------------------

  /** One field of a parsed record as `JSON.parse` leaves it: `Missing` is `undefined`,
      `Composite` an array or an object, carrying the text `String()` turns it into. */
  datatype Raw = Missing | Null | Bool(b: bool) | Num(n: int) | Str(s: string) | Composite(text: string)

  /** The `createdAt` field of a parsed record. */
  datatype RawStamp = StampMissing | StampNull | StampBool(b: bool) | StampNum(n: int)

  datatype RawTask = RawTask(id: Raw, title: Raw, completed: Raw, createdAt: RawStamp, completedAt: Raw)

  /** What the storage slot yields: no blob (`null` or the empty string), a blob on which
      `JSON.parse` or the mapping throws (bad JSON, not an array, a `null` element), or the
      records of the parsed array. A primitive element reads as a record of `Missing` fields. */
  datatype Stored = Absent | Malformed | Records(items: seq<RawTask>)

  function Digit(d: nat): char
    requires d < 10
  {
    "0123456789"[d]
  }

  function NatToString(n: nat): (r: string)
    ensures r != []
  {
    if n < 10 then [Digit(n)] else NatToString(n / 10) + [Digit(n % 10)]
  }

  predicate IsDigit(c: char) {
    '0' <= c <= '9'
  }

  /** The number a string of decimal digits denotes, most significant digit first. */
  function DigitsValue(s: string): nat
    requires forall i :: 0 <= i < |s| ==> IsDigit(s[i])
  {
    if s == [] then 0 else 10 * DigitsValue(s[..|s| - 1]) + DigitValue(s[|s| - 1])
  }

  function DigitValue(c: char): nat
    requires IsDigit(c)
  {
    c as int - '0' as int
  }

  /** `String(n)` for a non-negative integer is its canonical decimal numeral: digits only,
      no leading zero, denoting `n`. */
  lemma {:induction false} NatToStringDenotes(n: nat)
    ensures var r := NatToString(n);
      && (forall i :: 0 <= i < |r| ==> IsDigit(r[i]))
      && (r[0] == '0' ==> r == "0")
      && DigitsValue(r) == n
  {
    var r := NatToString(n);
    if n >= 10 {
      NatToStringDenotes(n / 10);
      var p := NatToString(n / 10);
      assert r == p + [Digit(n % 10)];
      assert r[..|r| - 1] == p;
      assert r[0] == p[0];
    }
  }

  function IntToString(n: int): string {
    if n < 0 then "-" + NatToString(-n) else NatToString(n)
  }

  /** `String(v)` */
  function ToJsString(v: Raw): string {
    match v
    case Missing => "undefined"
    case Null => "null"
    case Bool(b) => if b then "true" else "false"
    case Num(n) => IntToString(n)
    case Str(s) => s
    case Composite(text) => text
  }

  /** `Boolean(v)`, the truthiness of `v` */
  predicate Truthy(v: Raw) {
    match v
    case Missing => false
    case Null => false
    case Bool(b) => b
    case Num(n) => n != 0
    case Str(s) => s != []
    case Composite(_) => true
  }

  /** `Number(v ?? now)` */
  function StampOf(v: RawStamp, now: int): int {
    match v
    case StampMissing => now
    case StampNull => now
    case StampBool(b) => if b then 1 else 0
    case StampNum(n) => n
  }

  /** A stored `completedAt` that is `null` or a number is kept; anything else becomes
      `now` when the raw `completed` is truthy and `null` otherwise. */
  function RepairedCompletedAt(r: RawTask, now: int): Option<int> {
    match r.completedAt
    case Null => None
    case Num(n) => Some(n)
    case _ => if Truthy(r.completed) then Some(now) else None
  }

  function DecodeTask(r: RawTask, now: int): Task {
    Task(ToJsString(r.id), ToJsString(r.title), Truthy(r.completed), StampOf(r.createdAt, now),
         RepairedCompletedAt(r, now))
  }

  /** `parsed.map(...)`: one task per record, in the records' order. */
  function DecodeAll(items: seq<RawTask>, now: int): (ts: seq<Task>)
    ensures |ts| == |items|
    ensures forall i :: 0 <= i < |items| ==> ts[i] == DecodeTask(items[i], now)
  {
    if items == [] then [] else [DecodeTask(items[0], now)] + DecodeAll(items[1..], now)
  }

  /** The initial state of `tasks`: empty when nothing is stored or when reading throws. */
  function Load(stored: Stored, now: int): (ts: seq<Task>)
    ensures !stored.Records? ==> ts == []
    ensures stored.Records? ==> |ts| == |stored.items|
  {
    match stored
    case Absent => []
    case Malformed => []
    case Records(items) => DecodeAll(items, now)
  }

  /** The records `JSON.parse(JSON.stringify(ts))` gives back: what the persistence effect stores. */
  function Serialize(ts: seq<Task>): seq<RawTask> {
    if ts == [] then []
    else
      var t := ts[0];
      var stamp := match t.completedAt case None => Null case Some(n) => Num(n);
      [RawTask(Str(t.id), Str(t.title), Bool(t.completed), StampNum(t.createdAt), stamp)] + Serialize(ts[1..])
  }

  /** What the loader makes of each record: `completed` is the truthiness of the stored
      value, and `completedAt` is kept when stored as `null` or a number and otherwise derived
      from `completed`. */
  lemma LoadRepairsRecord(items: seq<RawTask>, now: int, i: nat)
    requires i < |items|
    ensures var t, r := Load(Records(items), now)[i], items[i];
      && t.id == ToJsString(r.id) && t.title == ToJsString(r.title)
      && t.completed == Truthy(r.completed)
      && t.createdAt == StampOf(r.createdAt, now)
      && (r.completedAt.Null? ==> t.completedAt == None)
      && (r.completedAt.Num? ==> t.completedAt == Some(r.completedAt.n))
      && (!r.completedAt.Null? && !r.completedAt.Num? ==>
            t.completedAt == if t.completed then Some(now) else None)
  {
  }

  /** A record saved as `{id: 1, title: "x", completed: true}` loads completed, with both
      timestamps taken from the clock. */
  lemma LoadStampsCompletedRecord(now: int)
    ensures Load(Records([RawTask(Num(1), Str("x"), Bool(true), StampMissing, Missing)]), now)
         == [Task("1", "x", true, now, Some(now))]
  {
  }

  /** The loader does not re-establish the completion invariant: a pending record with a
      numeric `completedAt` keeps it. */
  lemma LoadKeepsInconsistentRecord(now: int)
    ensures var ts := Load(Records([RawTask(Str("a"), Str("x"), Bool(false), StampNum(1), Num(5))]), now);
      |ts| == 1 && !ts[0].completed && ts[0].completedAt == Some(5) && !Consistent(ts[0])
  {
  }

  /** Persistence round trip: whatever list the store writes loads back unchanged. */
  lemma {:induction false} LoadSerializeRoundTrip(ts: seq<Task>, now: int)
    ensures Load(Records(Serialize(ts)), now) == ts
  {
    if ts != [] {
      LoadSerializeRoundTrip(ts[1..], now);
      assert Serialize(ts)[1..] == Serialize(ts[1..]);
    }
  }

  // ---------------------------------------------------------------------------------------
  // Invariants of the list
  // ---------------------------------------------------------------------------------------

  /** `completed` exactly when `completedAt` holds a timestamp. */
  predicate Consistent(t: Task) {
    t.completed <==> t.completedAt.Some?
  }

  predicate UniqueIds(ts: seq<Task>) {
    forall i, j :: 0 <= i < j < |ts| ==> ts[i].id != ts[j].id
  }

  predicate HasId(ts: seq<Task>, id: TaskId) {
    exists k :: 0 <= k < |ts| && ts[k].id == id
  }

  /** What every handler keeps: unique ids, the completion invariant, non-empty trimmed titles. */
  predicate WellFormed(ts: seq<Task>) {
    && UniqueIds(ts)
    && forall i :: 0 <= i < |ts| ==> Consistent(ts[i]) && ts[i].title != [] && IsTrimmed(ts[i].title)
  }

  /** `a` is `b` with some elements left out, the others in their original order. */
  ghost predicate IsSubsequence(a: seq<Task>, b: seq<Task>)
    decreases |b|
  {
    if a == [] then true
    else if b == [] then false
    else if a[0] == b[0] then IsSubsequence(a[1..], b[1..])
    else IsSubsequence(a, b[1..])
  }

  // ---------------------------------------------------------------------------------------
  // Lookup
  // ---------------------------------------------------------------------------------------

  /** The position of the first task with this id. */
  function FindIndex(ts: seq<Task>, id: TaskId): (r: Option<nat>)
    ensures r.None? <==> !HasId(ts, id)
    ensures r.Some? ==> r.value < |ts| && ts[r.value].id == id
    ensures r.Some? ==> forall j :: 0 <= j < r.value ==> ts[j].id != id
  {
    if ts == [] then None
    else if ts[0].id == id then Some(0)
    else
      match FindIndex(ts[1..], id)
      case None => (assert forall k :: 1 <= k < |ts| ==> ts[k] == ts[1..][k - 1]; None)
      case Some(k) => Some(k + 1)
  }

  /** `tasks.find((t) => t.id === id)`: the first task with the id. */
  function Find(ts: seq<Task>, id: TaskId): (r: Option<Task>)
    ensures r.None? <==> !HasId(ts, id)
    ensures r.Some? ==> r.value.id == id
    ensures r.Some? ==> exists k :: 0 <= k < |ts| && ts[k] == r.value && forall j :: 0 <= j < k ==> ts[j].id != id
  {
    match FindIndex(ts, id)
    case None => None
    case Some(k) => Some(ts[k])
  }

  // ---------------------------------------------------------------------------------------
  // The handlers, as the list they leave behind
  // ---------------------------------------------------------------------------------------

  /** The confirmation dialogs the handlers open, by what they name. */
  datatype Prompt =
    | FinishPrompt(title: string)
    | ReopenPrompt(title: string)
    | EditPrompt(from: string, to: string)
    | RemovePrompt(title: string)

  /** The phrase the removal prompt names when the task is already gone. */
  const RemoveFallbackTitle: string := "esta tarefa"

  function NewTask(id: TaskId, title: string, now: int): Task {
    Task(id, title, false, now, None)
  }

  /** `addTask(title)`: a title that trims to nothing leaves the list alone (after an alert);
      otherwise a fresh pending task with the trimmed title goes in front. */
  function AfterAdd(ts: seq<Task>, title: string, id: TaskId, now: int): seq<Task> {
    var trimmed := Trim(title);
    if trimmed == [] then ts else [NewTask(id, trimmed, now)] + ts
  }

  /** Every task with this id gets `completed := going`, and `completedAt` is the clock when
      completing and `null` when reopening. */
  function SetCompletion(ts: seq<Task>, id: TaskId, going: bool, now: int): seq<Task> {
    seq(|ts|, i requires 0 <= i < |ts| =>
      if ts[i].id == id
      then ts[i].(completed := going, completedAt := if going then Some(now) else None)
      else ts[i])
  }

  /** The confirmation `toggleTask(id)` asks for: none for an unknown id. */
  function TogglePrompt(ts: seq<Task>, id: TaskId): Option<Prompt> {
    match Find(ts, id)
    case None => None
    case Some(cur) => Some(if cur.completed then ReopenPrompt(cur.title) else FinishPrompt(cur.title))
  }

  /** `toggleTask(id)` with `ok` the answer to its prompt. The direction is read from the
      first task with the id. */
  function AfterToggle(ts: seq<Task>, id: TaskId, ok: bool, now: int): seq<Task> {
    match Find(ts, id)
    case None => ts
    case Some(cur) => if ok then SetCompletion(ts, id, !cur.completed, now) else ts
  }

  /** Every task with this id gets the title `next`; nothing else changes. */
  function SetTitle(ts: seq<Task>, id: TaskId, next: string): seq<Task> {
    seq(|ts|, i requires 0 <= i < |ts| => if ts[i].id == id then ts[i].(title := next) else ts[i])
  }

  /** The confirmation `updateTaskTitle(id, title)` asks for: none for a title that trims to
      nothing, an unknown id or an unchanged title. */
  function EditPromptFor(ts: seq<Task>, id: TaskId, title: string): Option<Prompt> {
    var next := Trim(title);
    if next == [] then None
    else
      match Find(ts, id)
      case None => None
      case Some(cur) => if cur.title == next then None else Some(EditPrompt(cur.title, next))
  }

  /** `updateTaskTitle(id, title)` with `ok` the answer to its prompt. */
  function AfterEdit(ts: seq<Task>, id: TaskId, title: string, ok: bool): seq<Task> {
    if EditPromptFor(ts, id, title).Some? && ok then SetTitle(ts, id, Trim(title)) else ts
  }

  /** `prev.filter((t) => t.id !== id)` */
  function Without(ts: seq<Task>, id: TaskId): (r: seq<Task>)
    ensures |r| <= |ts|
    ensures forall i :: 0 <= i < |r| ==> r[i].id != id
    ensures forall t :: t in r <==> t in ts && t.id != id
    ensures IsSubsequence(r, ts)
  {
    if ts == [] then []
    else if ts[0].id != id then [ts[0]] + Without(ts[1..], id)
    else Without(ts[1..], id)
  }

  /** `filter` keeps every copy: a task with another id occurs in the result as often as in
      the list, and a task with the id not at all. */
  lemma {:induction false} WithoutKeepsCopies(ts: seq<Task>, id: TaskId)
    ensures forall t :: multiset(Without(ts, id))[t] == if t.id != id then multiset(ts)[t] else 0
  {
    if ts != [] {
      WithoutKeepsCopies(ts[1..], id);
      assert ts == [ts[0]] + ts[1..];
    }
  }

  /** The confirmation `removeTask(id)` always asks, naming the task or the fallback phrase. */
  function RemovePromptFor(ts: seq<Task>, id: TaskId): Prompt {
    match Find(ts, id)
    case None => RemovePrompt(RemoveFallbackTitle)
    case Some(cur) => RemovePrompt(cur.title)
  }

  /** `removeTask(id)` with `ok` the answer to its prompt. */
  function AfterRemove(ts: seq<Task>, id: TaskId, ok: bool): seq<Task> {
    if ok then Without(ts, id) else ts
  }

  // ---------------------------------------------------------------------------------------
  // The filtered view and the counters
  // ---------------------------------------------------------------------------------------

  /** `tasks.filter((t) => t.completed === done)` */
  function Select(ts: seq<Task>, done: bool): (r: seq<Task>)
    ensures |r| <= |ts|
    ensures forall i :: 0 <= i < |r| ==> r[i].completed == done
    ensures forall t :: t in r <==> t in ts && t.completed == done
    ensures IsSubsequence(r, ts)
  {
    if ts == [] then []
    else if ts[0].completed == done then [ts[0]] + Select(ts[1..], done)
    else Select(ts[1..], done)
  }

  /** Whether a task belongs in the view of a filter. */
  predicate Shows(f: Filter, t: Task) {
    match f
    case All => true
    case Pending => !t.completed
    case Done => t.completed
  }

  /** `filteredTasks` */
  function FilteredTasks(ts: seq<Task>, f: Filter): seq<Task> {
    match f
    case All => ts
    case Pending => Select(ts, false)
    case Done => Select(ts, true)
  }

  /** The pending and done views split the list: together they hold each task exactly as
      often as the list does. */
  lemma {:induction false} ViewsPartition(ts: seq<Task>)
    ensures multiset(FilteredTasks(ts, Pending)) + multiset(FilteredTasks(ts, Done)) == multiset(ts)
    ensures |FilteredTasks(ts, Pending)| + |FilteredTasks(ts, Done)| == |ts|
  {
    if ts != [] {
      ViewsPartition(ts[1..]);
      assert ts == [ts[0]] + ts[1..];
    }
  }

  /** Each view is the list itself for "all", and otherwise the order-preserving selection of
      exactly the tasks the filter shows. */
  lemma FilteredViewSelects(ts: seq<Task>, f: Filter)
    ensures IsSubsequence(FilteredTasks(ts, f), ts)
    ensures forall t :: t in FilteredTasks(ts, f) <==> t in ts && Shows(f, t)
    ensures f == All ==> FilteredTasks(ts, f) == ts
  {
    if f == All { SubsequenceOfItself(ts); }
  }

  lemma {:induction false} SubsequenceOfItself(ts: seq<Task>)
    ensures IsSubsequence(ts, ts)
  {
    if ts != [] { SubsequenceOfItself(ts[1..]); }
  }

  datatype Counters = Counters(total: nat, pending: int, done: nat)

  /** `total`, `done` and `pending` as the header shows them. */
  function CountersOf(ts: seq<Task>): (c: Counters)
    ensures c.total == |ts| && c.pending + c.done == c.total && c.done <= c.total
    ensures c.done == |FilteredTasks(ts, Done)| && c.pending == |FilteredTasks(ts, Pending)|
    ensures c.pending >= 0
  {
    ViewsPartition(ts);
    var done := |Select(ts, true)|;
    Counters(|ts|, |ts| - done, done)
  }

  // ---------------------------------------------------------------------------------------
  // What the handlers promise
  // ---------------------------------------------------------------------------------------

  /** A blank title leaves the list unchanged; any other title puts one pending task with the
      trimmed title and the fresh id in front of the unchanged list. */
  lemma AddPrepends(ts: seq<Task>, title: string, id: TaskId, now: int)
    ensures IsBlank(title) ==> AfterAdd(ts, title, id, now) == ts
    ensures !IsBlank(title) ==>
      var r := AfterAdd(ts, title, id, now);
      && |r| == |ts| + 1 && r[1..] == ts
      && r[0].id == id && r[0].title == Trim(title) && r[0].title != []
      && !r[0].completed && r[0].completedAt == None && r[0].createdAt == now
  {
  }

  /** Adding with an id no task has keeps the list well formed. */
  lemma AddPreservesWellFormed(ts: seq<Task>, title: string, id: TaskId, now: int)
    requires WellFormed(ts) && !HasId(ts, id)
    ensures WellFormed(AfterAdd(ts, title, id, now))
  {
    if !IsBlank(title) {
      var r := [NewTask(id, Trim(title), now)] + ts;
      assert AfterAdd(ts, title, id, now) == r;
      forall i | 0 < i < |r| ensures r[i] == ts[i - 1] && r[i].id != id {
        assert r[i] == ts[i - 1];
      }
      forall i, j | 0 <= i < j < |r| ensures r[i].id != r[j].id {
        if i > 0 {
          assert r[i] == ts[i - 1] && r[j] == ts[j - 1];
        }
      }
    }
  }

  /** An unknown id or a declined prompt leaves the list as it was. */
  lemma ToggleNoOp(ts: seq<Task>, id: TaskId, ok: bool, now: int)
    requires !HasId(ts, id) || !ok
    ensures AfterToggle(ts, id, ok, now) == ts
    ensures TogglePrompt(ts, id).None? <==> !HasId(ts, id)
  {
  }

  /** An accepted toggle reads the direction from the first task with the id, `ts[k]`: every
      task with the id gets the opposite of its `completed`, and the clock as stamp when
      completing or no stamp when reopening. Tasks with other ids are unchanged, and so are
      the other fields. */
  lemma ToggleFlips(ts: seq<Task>, id: TaskId, now: int, k: nat)
    requires k < |ts| && ts[k].id == id
    requires forall j :: 0 <= j < k ==> ts[j].id != id
    ensures var r := AfterToggle(ts, id, true, now);
      && |r| == |ts|
      && r[k] == ts[k].(completed := !ts[k].completed,
                        completedAt := if ts[k].completed then None else Some(now))
      && (forall j :: 0 <= j < |ts| && ts[j].id != id ==> r[j] == ts[j])
      && (forall j :: 0 <= j < |ts| && ts[j].id == id ==>
            r[j] == ts[j].(completed := !ts[k].completed,
                           completedAt := if ts[k].completed then None else Some(now)))
      && (forall j :: 0 <= j < |ts| && ts[j].id == id ==> Consistent(r[j]))
  {
    assert FindIndex(ts, id) == Some(k);
  }

  /** Completing a pending task and then reopening it restores the list. */
  lemma ToggleTwiceRestoresPending(ts: seq<Task>, id: TaskId, k: nat, t1: int, t2: int)
    requires WellFormed(ts)
    requires k < |ts| && ts[k].id == id && !ts[k].completed
    ensures AfterToggle(AfterToggle(ts, id, true, t1), id, true, t2) == ts
  {
    assert forall j :: 0 <= j < |ts| && j != k ==> ts[j].id != id;
    ToggleFlips(ts, id, t1, k);
    var mid := AfterToggle(ts, id, true, t1);
    assert forall j :: 0 <= j < |ts| && j != k ==> mid[j] == ts[j];
    ToggleFlips(mid, id, t2, k);
    var last := AfterToggle(mid, id, true, t2);
    assert Consistent(ts[k]);
    assert last[k] == ts[k];
    assert forall j :: 0 <= j < |ts| && j != k ==> last[j] == ts[j];
  }

  /** Toggling keeps a well-formed list well formed. */
  lemma TogglePreservesWellFormed(ts: seq<Task>, id: TaskId, ok: bool, now: int)
    requires WellFormed(ts)
    ensures WellFormed(AfterToggle(ts, id, ok, now))
  {
    var cur := Find(ts, id);
    if cur.Some? && ok {
      var r := SetCompletion(ts, id, !cur.value.completed, now);
      assert AfterToggle(ts, id, ok, now) == r;
      assert forall i :: 0 <= i < |r| ==> r[i].id == ts[i].id && r[i].title == ts[i].title;
      assert forall i :: 0 <= i < |r| ==> Consistent(r[i]);
    }
  }

  /** No prompt and no change for a blank title, an unknown id or an unchanged title; a
      declined prompt changes nothing either. */
  lemma EditNoOp(ts: seq<Task>, id: TaskId, title: string, ok: bool)
    ensures (IsBlank(title) || !HasId(ts, id) || Find(ts, id).value.title == Trim(title))
              ==> EditPromptFor(ts, id, title) == None
    ensures EditPromptFor(ts, id, title) == None || !ok ==> AfterEdit(ts, id, title, ok) == ts
  {
  }

  /** An accepted edit of a title that differs from the first task with the id, `ts[k]`, asks
      with that task's title and the new one, then gives the trimmed text as title to every
      task with the id; nothing else changes. */
  lemma EditReplacesTitle(ts: seq<Task>, id: TaskId, title: string, k: nat)
    requires k < |ts| && ts[k].id == id
    requires forall j :: 0 <= j < k ==> ts[j].id != id
    requires !IsBlank(title) && ts[k].title != Trim(title)
    ensures EditPromptFor(ts, id, title) == Some(EditPrompt(ts[k].title, Trim(title)))
    ensures var r := AfterEdit(ts, id, title, true);
      && |r| == |ts|
      && (forall j :: 0 <= j < |ts| && ts[j].id == id ==> r[j] == ts[j].(title := Trim(title)))
      && (forall j :: 0 <= j < |ts| && ts[j].id != id ==> r[j] == ts[j])
  {
    assert FindIndex(ts, id) == Some(k);
  }

  /** Editing keeps a well-formed list well formed: the new title is trimmed and non-empty. */
  lemma EditPreservesWellFormed(ts: seq<Task>, id: TaskId, title: string, ok: bool)
    requires WellFormed(ts)
    ensures WellFormed(AfterEdit(ts, id, title, ok))
  {
    if EditPromptFor(ts, id, title).Some? && ok {
      var next := Trim(title);
      var r := SetTitle(ts, id, next);
      assert |r| == |ts|;
      assert forall i :: 0 <= i < |r| ==> r[i].id == ts[i].id;
      forall i | 0 <= i < |r|
        ensures Consistent(r[i]) && r[i].title != [] && IsTrimmed(r[i].title)
      {
        if ts[i].id == id { assert r[i].title == next; } else { assert r[i] == ts[i]; }
      }
    }
  }

  /** Removal always asks (with the fallback phrase for an absent id); an accepted removal
      keeps, in order, exactly the tasks with other ids, and a declined one changes nothing. */
  lemma RemoveFilters(ts: seq<Task>, id: TaskId, ok: bool)
    ensures !HasId(ts, id) ==> RemovePromptFor(ts, id) == RemovePrompt(RemoveFallbackTitle)
    ensures !ok ==> AfterRemove(ts, id, ok) == ts
    ensures ok ==> var r := AfterRemove(ts, id, ok);
      && IsSubsequence(r, ts) && !HasId(r, id) && (forall t :: t in r <==> t in ts && t.id != id)
      && forall t :: multiset(r)[t] == if t.id != id then multiset(ts)[t] else 0
  {
    WithoutKeepsCopies(ts, id);
  }

  /** Removing keeps a well-formed list well formed. */
  lemma {:induction false} RemovePreservesWellFormed(ts: seq<Task>, id: TaskId, ok: bool)
    requires WellFormed(ts)
    ensures WellFormed(AfterRemove(ts, id, ok))
  {
    if ok { WithoutKeepsWellFormed(ts, id); }
  }

  /** Filtering out an id keeps a well-formed list well formed: the kept tasks come from the
      list, in order. */
  lemma WithoutKeepsWellFormed(ts: seq<Task>, id: TaskId)
    requires WellFormed(ts)
    ensures WellFormed(Without(ts, id))
  {
    var r := Without(ts, id);
    SubsequenceKeepsUniqueIds(r, ts);
    forall i | 0 <= i < |r| ensures Consistent(r[i]) && r[i].title != [] && IsTrimmed(r[i].title) {
      assert r[i] in ts;
      var k :| 0 <= k < |ts| && ts[k] == r[i];
    }
  }

  /** Leaving tasks out of a list with unique ids keeps the ids unique. */
  lemma {:induction false} SubsequenceKeepsUniqueIds(a: seq<Task>, b: seq<Task>)
    requires IsSubsequence(a, b) && UniqueIds(b)
    ensures UniqueIds(a)
    decreases |b|
  {
    if a != [] && b != [] {
      assert UniqueIds(b[1..]) by {
        forall i, j | 0 <= i < j < |b[1..]| ensures b[1..][i].id != b[1..][j].id {
          assert b[1..][i] == b[i + 1] && b[1..][j] == b[j + 1];
        }
      }
      if a[0] == b[0] {
        SubsequenceKeepsUniqueIds(a[1..], b[1..]);
        SubsequenceMembers(a[1..], b[1..]);
        forall i, j | 0 <= i < j < |a| ensures a[i].id != a[j].id {
          if i == 0 {
            assert a[j] == a[1..][j - 1];
            assert a[j] in b[1..];
            var m :| 0 <= m < |b[1..]| && b[1..][m] == a[j];
            assert b[m + 1] == a[j];
          } else {
            assert a[i] == a[1..][i - 1] && a[j] == a[1..][j - 1];
          }
        }
      } else {
        SubsequenceKeepsUniqueIds(a, b[1..]);
      }
    }
  }

  // ---------------------------------------------------------------------------------------
  // How the components' outputs meet the handlers
  // ---------------------------------------------------------------------------------------

  /** The form hands `addTask` a title it has already trimmed and found non-empty; trimming
      again changes nothing, so such a title is always added, unchanged. */
  lemma SubmittedTitleIsAdded(ts: seq<Task>, field: string, id: TaskId, now: int)
    requires TaskInput.Submitted(field).Some?
    ensures var v := TaskInput.Submitted(field).value;
      AfterAdd(ts, v, id, now) == [NewTask(id, v, now)] + ts
  {
    TrimIdempotent(field);
  }

  /** An edit the item asks to confirm reaches `updateTaskTitle` as a trimmed, non-empty,
      changed title, and the handler asks for confirmation a second time, naming the same
      two titles. */
  lemma ConfirmedEditIsPromptedAgain(ts: seq<Task>, k: nat, draft: string)
    requires k < |ts| && forall j :: 0 <= j < k ==> ts[j].id != ts[k].id
    requires TaskItem.SaveStepFor(false, draft, ts[k].title).Confirming?
    ensures var next := TaskItem.SaveStepFor(false, draft, ts[k].title).next;
      EditPromptFor(ts, ts[k].id, next) == Some(EditPrompt(ts[k].title, next))
  {
    var next := TaskItem.SaveStepFor(false, draft, ts[k].title).next;
    TrimOfTrimmed(next);
    assert FindIndex(ts, ts[k].id) == Some(k);
  }

  // ---------------------------------------------------------------------------------------
  // The order the list view sorts by
  // ---------------------------------------------------------------------------------------

  /** No task was created after `now`. */
  predicate CreatedBy(ts: seq<Task>, now: int) {
    forall i :: 0 <= i < |ts| ==> ts[i].createdAt <= now
  }

  /** Every element of a subsequence is an element of the whole. */
  lemma {:induction false} SubsequenceMembers(a: seq<Task>, b: seq<Task>)
    requires IsSubsequence(a, b)
    ensures forall t :: t in a ==> t in b
    decreases |b|
  {
    if a != [] && b != [] {
      if a[0] == b[0] {
        SubsequenceMembers(a[1..], b[1..]);
        assert forall t :: t in a ==> t == a[0] || t in a[1..];
      } else {
        SubsequenceMembers(a, b[1..]);
      }
    }
  }

  /** Leaving tasks out of a newest-first list keeps it newest first. */
  lemma {:induction false} SubsequenceKeepsNewestFirst(a: seq<Task>, b: seq<Task>)
    requires IsSubsequence(a, b) && TaskList.NewestFirst(b)
    ensures TaskList.NewestFirst(a)
    decreases |b|
  {
    if a != [] && b != [] {
      assert TaskList.NewestFirst(b[1..]);
      if a[0] == b[0] {
        SubsequenceKeepsNewestFirst(a[1..], b[1..]);
        if a[1..] != [] {
          SubsequenceMembers(a[1..], b[1..]);
          assert a[1..][0] in b[1..];
        }
        TaskList.PrependKeepsOrder(a[0], a[1..]);
        assert a == [a[0]] + a[1..];
      } else {
        SubsequenceKeepsNewestFirst(a, b[1..]);
      }
    }
  }

  /** A list with the same creation times, position by position, is ordered alike. */
  lemma SameStampsKeepOrder(a: seq<Task>, b: seq<Task>)
    requires |a| == |b| && forall i :: 0 <= i < |a| ==> a[i].createdAt == b[i].createdAt
    requires TaskList.NewestFirst(b)
    ensures TaskList.NewestFirst(a)
  {
  }

  /** With a clock that never runs backwards, adding leaves a newest-first list newest first:
      the new task is the newest. */
  lemma AddKeepsNewestFirst(ts: seq<Task>, title: string, id: TaskId, now: int)
    requires TaskList.NewestFirst(ts) && CreatedBy(ts, now)
    ensures TaskList.NewestFirst(AfterAdd(ts, title, id, now))
  {
    if !IsBlank(title) {
      TaskList.PrependKeepsOrder(NewTask(id, Trim(title), now), ts);
    }
  }

  /** Toggling and editing keep every creation time, and so the order. */
  lemma ToggleEditKeepNewestFirst(ts: seq<Task>, title: string, id: TaskId, ok: bool, now: int)
    requires TaskList.NewestFirst(ts)
    ensures TaskList.NewestFirst(AfterToggle(ts, id, ok, now))
    ensures TaskList.NewestFirst(AfterEdit(ts, id, title, ok))
  {
    var toggled := AfterToggle(ts, id, ok, now);
    assert forall i :: 0 <= i < |ts| ==> toggled[i].createdAt == ts[i].createdAt;
    SameStampsKeepOrder(toggled, ts);
    var edited := AfterEdit(ts, id, title, ok);
    assert forall i :: 0 <= i < |ts| ==> edited[i].createdAt == ts[i].createdAt;
    SameStampsKeepOrder(edited, ts);
  }

  /** Removing only leaves tasks out, and so keeps the order. */
  lemma RemoveKeepsNewestFirst(ts: seq<Task>, id: TaskId, ok: bool)
    requires TaskList.NewestFirst(ts)
    ensures TaskList.NewestFirst(AfterRemove(ts, id, ok))
  {
    if ok {
      SubsequenceKeepsNewestFirst(Without(ts, id), ts);
    }
  }

  /** Every filtered view of a newest-first list is newest first, so the list view's sort
      shows it in the order `App` passes it. */
  lemma ListViewKeepsOrder(ts: seq<Task>, f: Filter)
    requires TaskList.NewestFirst(ts)
    ensures TaskList.SortedNewestFirst(FilteredTasks(ts, f)) == FilteredTasks(ts, f)
  {
    FilteredViewSelects(ts, f);
    SubsequenceKeepsNewestFirst(FilteredTasks(ts, f), ts);
    TaskList.SortKeepsOrderedList(FilteredTasks(ts, f));
  }

  // ---------------------------------------------------------------------------------------
  // The component state
  // ---------------------------------------------------------------------------------------

  /** The state `App` holds: the list, the filter, and the storage slot the persistence
      effect writes after every change of the list. */
  class Store {
    var tasks: seq<Task>
    var filter: Filter
    /** The slot under "todo-list:v1", as `JSON.parse` would read it back. */
    var persisted: seq<RawTask>

    ghost predicate Valid()
      reads this
    {
      persisted == Serialize(tasks)
    }

    /** The initial state: the repaired saved list, filter "all", and the slot rewritten by the
        effect's first run. */
    constructor (stored: Stored, now: int)
      ensures tasks == Load(stored, now) && filter == All && Valid()
    {
      tasks := Load(stored, now);
      filter := All;
      persisted := Serialize(Load(stored, now));
    }

    method AddTask(title: string, freshId: TaskId, now: int) returns (alerted: bool)
      requires Valid()
      modifies this
      ensures Valid() && filter == old(filter)
      ensures alerted == IsBlank(title)
      ensures tasks == AfterAdd(old(tasks), title, freshId, now)
    {
      var trimmed := Trim(title);
      if trimmed == [] {
        alerted := true;
        return;
      }
      alerted := false;
      tasks := [NewTask(freshId, trimmed, now)] + tasks;
      persisted := Serialize(tasks);
    }

    method ToggleTask(id: TaskId, answer: bool, now: int) returns (prompt: Option<Prompt>)
      requires Valid()
      modifies this
      ensures Valid() && filter == old(filter)
      ensures prompt == TogglePrompt(old(tasks), id)
      ensures tasks == AfterToggle(old(tasks), id, answer, now)
    {
      var current := Find(tasks, id);
      if current.None? {
        return None;
      }
      var goingToComplete := !current.value.completed;
      prompt := Some(if goingToComplete then FinishPrompt(current.value.title)
                     else ReopenPrompt(current.value.title));
      if !answer {
        return;
      }
      tasks := SetCompletion(tasks, id, goingToComplete, now);
      persisted := Serialize(tasks);
    }

    method UpdateTaskTitle(id: TaskId, title: string, answer: bool) returns (alerted: bool, prompt: Option<Prompt>)
      requires Valid()
      modifies this
      ensures Valid() && filter == old(filter)
      ensures alerted == IsBlank(title)
      ensures prompt == EditPromptFor(old(tasks), id, title)
      ensures tasks == AfterEdit(old(tasks), id, title, answer)
    {
      var next := Trim(title);
      alerted, prompt := false, None;
      if next == [] {
        alerted := true;
        return;
      }
      var current := Find(tasks, id);
      if current.None? || current.value.title == next {
        return;
      }
      prompt := Some(EditPrompt(current.value.title, next));
      if !answer {
        return;
      }
      tasks := SetTitle(tasks, id, next);
      persisted := Serialize(tasks);
    }

    method RemoveTask(id: TaskId, answer: bool) returns (prompt: Prompt)
      requires Valid()
      modifies this
      ensures Valid() && filter == old(filter)
      ensures prompt == RemovePromptFor(old(tasks), id)
      ensures tasks == AfterRemove(old(tasks), id, answer)
    {
      var current := Find(tasks, id);
      prompt := RemovePrompt(if current.Some? then current.value.title else RemoveFallbackTitle);
      if !answer {
        return;
      }
      tasks := Without(tasks, id);
      persisted := Serialize(tasks);
    }

    method SetFilter(f: Filter)
      modifies this`filter
      ensures filter == f
    {
      filter := f;
    }
  }
}
