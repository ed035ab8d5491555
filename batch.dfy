/**
 * lib/batch-processor.js: batch tasks with a five-state status, the task
 * table of `BatchProcessor`, template lookup and `{{key}}` substitution, and
 * the per-item loops of `batchConvert` and `batchApplyTemplate`.
 *
 * What the loops wait for is passed in: `respond(i)` is the outcome of the
 * request for item `i`, and `cancelled(i)` says whether a `cancelTask` call
 * for the running task arrives while item `i` is being awaited. `now` stands
 * for every `Date.now()` reading of one call.
 */
module Batch {
  import opened Wrappers
  import opened Text
  import opened InsertionMap
  import opened TemplateCatalogue

  /** `BATCH_STATUS`. */
  datatype Status = Pending | Processing | Completed | Failed | Cancelled

  /** `BATCH_TYPES`. */
  datatype BatchType = Convert | Export | ApplyTemplate | Validation

  /** A finished task: the statuses `clearCompletedTasks` removes. */
  predicate Finished(s: Status) {
    s == Completed || s == Failed || s == Cancelled
  }

  /** One element of a batch's `results` array. */
  datatype ItemResult =
    | Converted(id: Option<string>, input: string, output: string)
    | ConvertFailed(id: Option<string>, input: string, error: string)
    | Applied(id: Option<string>, name: string, code: string, template: string)

  predicate Succeeded(r: ItemResult) {
    r.Converted? || r.Applied?
  }

  /** `BatchTask`; `data` and `options` are kept by the caller and not modelled. */
  class BatchTask {
    const id: string
    const kind: BatchType
    var status: Status
    var result: Option<seq<ItemResult>>
    var error: Option<string>
    var progress: int
    var startTime: Option<int>
    var endTime: Option<int>

    /** A new task is pending, with no progress, result, error or times. */
    constructor (id: string, kind: BatchType)
      ensures this.id == id && this.kind == kind
      ensures status == Pending && progress == 0
      ensures result == None && error == None && startTime == None && endTime == None
    {
      this.id := id;
      this.kind := kind;
      status := Pending;
      result := None;
      error := None;
      progress := 0;
      startTime := None;
      endTime := None;
    }

    /** `start()`, from any status. */
    method Start(now: int)
      modifies this
      ensures status == Processing && startTime == Some(now)
      ensures result == old(result) && error == old(error) && progress == old(progress) && endTime == old(endTime)
    {
      status := Processing;
      startTime := Some(now);
    }

    /** `complete(result)`, from any status: progress becomes 100. */
    method Complete(r: seq<ItemResult>, now: int)
      modifies this
      ensures status == Completed && result == Some(r) && progress == 100 && endTime == Some(now)
      ensures error == old(error) && startTime == old(startTime)
    {
      status := Completed;
      result := Some(r);
      progress := 100;
      endTime := Some(now);
    }

    /** `fail(error)`, from any status: progress is left as it was. */
    method Fail(e: string, now: int)
      modifies this
      ensures status == Failed && error == Some(e) && endTime == Some(now)
      ensures result == old(result) && progress == old(progress) && startTime == old(startTime)
    {
      status := Failed;
      error := Some(e);
      endTime := Some(now);
    }

    /** `cancel()`, from any status. */
    method Cancel(now: int)
      modifies this
      ensures status == Cancelled && endTime == Some(now)
      ensures result == old(result) && error == old(error) && progress == old(progress) && startTime == old(startTime)
    {
      status := Cancelled;
      endTime := Some(now);
    }
  }

  type TaskTable = seq<Entry<string, BatchTask>>

  /** Whether each entry's task is finished, read from the heap once. */
  function FinishedFlags(es: TaskTable): (r: seq<bool>)
    reads set i | 0 <= i < |es| :: es[i].value
    ensures |r| == |es| && forall i :: 0 <= i < |es| ==> r[i] == Finished(es[i].value.status)
    decreases |es|
  {
    if es == [] then [] else FinishedFlags(es[..|es| - 1]) + [Finished(es[|es| - 1].value.status)]
  }

  /** The entries of `es` not flagged finished, in order. */
  function Keep(es: TaskTable, finished: seq<bool>): (r: TaskTable)
    requires |finished| == |es|
    ensures |r| <= |es|
    decreases |es|
  {
    if es == [] then []
    else
      var rest := Keep(es[..|es| - 1], finished[..|es| - 1]);
      if finished[|es| - 1] then rest else rest + [es[|es| - 1]]
  }

  /** Exactly the entries whose flag is clear survive. */
  lemma {:induction false} KeepMembers(es: TaskTable, finished: seq<bool>, e: Entry<string, BatchTask>)
    requires |finished| == |es|
    ensures e in Keep(es, finished) <==> exists i :: 0 <= i < |es| && es[i] == e && !finished[i]
    decreases |es|
  {
    if es != [] {
      var n := |es| - 1;
      KeepMembers(es[..n], finished[..n], e);
      if e in Keep(es, finished) && e !in Keep(es[..n], finished[..n]) {
        assert es[n] == e && !finished[n];
      }
      if exists i :: 0 <= i < |es| && es[i] == e && !finished[i] {
        var i :| 0 <= i < |es| && es[i] == e && !finished[i];
        if i < n {
          assert es[..n][i] == e && !finished[..n][i];
        }
      }
    }
  }

  /** Removing entries keeps the table well-formed. */
  lemma {:induction false} KeepUnique(es: TaskTable, finished: seq<bool>)
    requires |finished| == |es| && UniqueKeys(es)
    ensures UniqueKeys(Keep(es, finished))
    decreases |es|
  {
    if es != [] {
      var n := |es| - 1;
      var init := es[..n];
      var last := es[n];
      KeepUnique(init, finished[..n]);
      var rest := Keep(init, finished[..n]);
      forall e | e in rest
        ensures e.key != last.key
      {
        KeepMembers(init, finished[..n], e);
        var j :| 0 <= j < |init| && init[j] == e && !finished[..n][j];
        assert es[j] == e;
      }
      if !finished[n] {
        forall a, b | 0 <= a < b < |rest + [last]|
          ensures (rest + [last])[a].key != (rest + [last])[b].key
        {
          if b == |rest| {
            assert (rest + [last])[a] in rest;
          } else {
            assert (rest + [last])[a] == rest[a] && (rest + [last])[b] == rest[b];
          }
        }
      }
    }
  }

  /** What survives of a prefix of a well-formed table holds no key of the entry right after it. */
  lemma KeepLacksNext(es: TaskTable, finished: seq<bool>, i: nat)
    requires |finished| == |es| && UniqueKeys(es) && i < |es|
    ensures !Has(Keep(es[..i], finished[..i]), es[i].key)
  {
    var pre := Keep(es[..i], finished[..i]);
    forall j | 0 <= j < |pre|
      ensures pre[j].key != es[i].key
    {
      KeepMembers(es[..i], finished[..i], pre[j]);
      var k :| 0 <= k < i && es[..i][k] == pre[j] && !finished[..i][k];
      assert es[k] == pre[j];
    }
  }

  /** The loop of `clearCompletedTasks()`: walks the table and deletes each finished task from it. */
  method DeleteFinished(start: TaskTable) returns (table: TaskTable)
    requires UniqueKeys(start)
    ensures table == Keep(start, FinishedFlags(start))
  {
    ghost var flags := FinishedFlags(start);
    table := start;
    for i := 0 to |start|
      invariant table == Walk(start, flags, i)
    {
      var e := start[i];
      assert flags[i] == Finished(e.value.status);
      if Finished(e.value.status) {
        table := Delete(table, e.key);
      }
    }
    WalkKeeps(start, flags, |start|);
    KeepWhole(start, flags);
  }

  /** The table after the walk has visited the first `i` entries, deleting the flagged ones. */
  function Walk(start: TaskTable, finished: seq<bool>, i: nat): TaskTable
    requires |finished| == |start| && i <= |start|
    decreases i
  {
    if i == 0 then start
    else if finished[i - 1] then Delete(Walk(start, finished, i - 1), start[i - 1].key)
    else Walk(start, finished, i - 1)
  }

  /** Deleting while walking leaves the kept prefix followed by the entries not yet visited. */
  lemma {:induction false} WalkKeeps(start: TaskTable, finished: seq<bool>, i: nat)
    requires |finished| == |start| && UniqueKeys(start) && i <= |start|
    ensures Walk(start, finished, i) == Keep(start[..i], finished[..i]) + start[i..]
    decreases i
  {
    if i == 0 {
      assert start[..0] == [] && finished[..0] == [] && start[0..] == start;
    } else {
      WalkKeeps(start, finished, i - 1);
      KeepStep(start, finished, i);
    }
  }

  lemma KeepWhole(es: TaskTable, finished: seq<bool>)
    requires |finished| == |es|
    ensures Keep(es[..|es|], finished[..|es|]) + es[|es|..] == Keep(es, finished)
  {
    assert es[..|es|] == es && finished[..|es|] == finished && es[|es|..] == [];
  }

  /** One step of the walk: the next entry is deleted when flagged, and kept otherwise. */
  lemma KeepStep(es: TaskTable, finished: seq<bool>, n: nat)
    requires |finished| == |es| && UniqueKeys(es) && 0 < n <= |es|
    ensures var before := Keep(es[..n - 1], finished[..n - 1]) + es[n - 1..];
            var after := Keep(es[..n], finished[..n]) + es[n..];
            (finished[n - 1] ==> Delete(before, es[n - 1].key) == after) && (!finished[n - 1] ==> before == after)
  {
    var i := n - 1;
    assert es[..n][..i] == es[..i] && finished[..n][..i] == finished[..i];
    assert es[i..] == [es[i]] + es[n..];
    if finished[i] {
      KeepLacksNext(es, finished, i);
      DeleteAfterPrefix(Keep(es[..i], finished[..i]), es[i..]);
    }
  }

  /** With the flags read from the heap, what is kept is exactly the unfinished tasks. */
  lemma KeepUnfinished(es: TaskTable, finished: seq<bool>)
    requires |finished| == |es| && forall i :: 0 <= i < |es| ==> finished[i] == Finished(es[i].value.status)
    ensures forall e :: e in Keep(es, finished) <==> e in es && !Finished(e.value.status)
  {
    forall e
      ensures e in Keep(es, finished) <==> e in es && !Finished(e.value.status)
    {
      KeepMembers(es, finished, e);
    }
  }

  /** `findTemplate(templateId)`: the first template with that id, category by category in key order. */
  function FindTemplateIn(cat: Catalogue, templateId: string): (r: Option<Template>)
    ensures r.Some? ==> r.value.id == templateId
    ensures r.Some? ==> exists i :: 0 <= i < |cat| && r.value in cat[i].value
    ensures r.None? <==> forall i, t :: 0 <= i < |cat| && t in cat[i].value ==> t.id != templateId
    decreases |cat|
  {
    if cat == [] then None
    else match FindById(cat[0].value, templateId)
      case Some(t) => Some(t)
      case None =>
        var r := FindTemplateIn(cat[1..], templateId);
        assert forall i :: 1 <= i < |cat| ==> cat[i] == cat[1..][i - 1];
        if r.Some? then
          var i :| 0 <= i < |cat[1..]| && r.value in cat[1..][i].value;
          assert r.value in cat[i + 1].value;
          r
        else r
  }

  /** No category before position `i` holds a template with the id. */
  predicate NoneBefore(cat: Catalogue, templateId: string, i: nat)
    requires i <= |cat|
  {
    forall j :: 0 <= j < i ==> FindById(cat[j].value, templateId).None?
  }

  lemma NoneBeforeShift(cat: Catalogue, templateId: string, i: nat)
    requires i < |cat| && FindById(cat[0].value, templateId).None? && NoneBefore(cat[1..], templateId, i)
    ensures NoneBefore(cat, templateId, i + 1)
  {
    forall j | 0 < j < i + 1
      ensures FindById(cat[j].value, templateId).None?
    {
      assert cat[j] == cat[1..][j - 1];
    }
  }

  /** The template found is the one `getTemplate` returns for the first category that holds the id. */
  lemma {:induction false} FindTemplateFirstCategory(cat: Catalogue, templateId: string)
    requires FindTemplateIn(cat, templateId).Some?
    ensures exists i :: 0 <= i < |cat| && FindById(cat[i].value, templateId) == FindTemplateIn(cat, templateId)
                        && NoneBefore(cat, templateId, i)
    decreases |cat|
  {
    if FindById(cat[0].value, templateId).None? {
      var rest := cat[1..];
      assert FindTemplateIn(cat, templateId) == FindTemplateIn(rest, templateId);
      FindTemplateFirstCategory(rest, templateId);
      var i :| 0 <= i < |rest| && FindById(rest[i].value, templateId) == FindTemplateIn(rest, templateId)
               && NoneBefore(rest, templateId, i);
      NoneBeforeShift(cat, templateId, i);
      assert cat[i + 1] == rest[i];
    } else {
      assert NoneBefore(cat, templateId, 0);
    }
  }

  /** `findTemplate(templateId)` over the built-in catalogue. */
  function FindTemplate(templateId: string): Option<Template> {
    FindTemplateIn(Templates, templateId)
  }

  /** The placeholder `{{key}}`. */
  function Placeholder(key: string): (p: string)
    ensures p != [] && |p| == |key| + 4
  {
    "{{" + key + "}}"
  }

  /** The code after replacing, key by key in entry order, every `{{key}}` by its value. */
  function Substituted(code: string, parameters: seq<Entry<string, string>>): string
    decreases |parameters|
  {
    if parameters == [] then code
    else
      var last := parameters[|parameters| - 1];
      ReplaceAll(Substituted(code, parameters[..|parameters| - 1]), Placeholder(last.key), last.value)
  }

  /** Code holding none of the placeholders comes out unchanged. */
  lemma {:induction false} SubstitutedNoPlaceholders(code: string, parameters: seq<Entry<string, string>>)
    requires forall i :: 0 <= i < |parameters| ==> !Contains(code, Placeholder(parameters[i].key))
    ensures Substituted(code, parameters) == code
    decreases |parameters|
  {
    if parameters != [] {
      var init := parameters[..|parameters| - 1];
      assert forall i :: 0 <= i < |init| ==> init[i] == parameters[i];
      SubstitutedNoPlaceholders(code, init);
      var last := parameters[|parameters| - 1];
      ReplaceAllAbsent(code, Placeholder(last.key), last.value);
    }
  }

  /**
   * One key: in code whose text around the placeholders holds no `{`, every
   * `{{key}}` becomes the value and nothing else changes.
   */
  lemma SubstitutedOneKey(pieces: seq<string>, key: string, value: string)
    requires forall i :: 0 <= i < |pieces| ==> '{' !in pieces[i]
    ensures Substituted(Join(pieces, Placeholder(key)), [Entry(key, value)]) == Join(pieces, value)
  {
    var parameters := [Entry(key, value)];
    assert parameters[..0] == [];
    assert Placeholder(key)[0] == '{';
    ReplaceAllJoin(pieces, Placeholder(key), value);
  }

  /** Parameters whose values are their own placeholders leave the code unchanged. */
  lemma {:induction false} SubstitutedOwnPlaceholders(code: string, parameters: seq<Entry<string, string>>)
    requires forall i :: 0 <= i < |parameters| ==> parameters[i].value == Placeholder(parameters[i].key)
    ensures Substituted(code, parameters) == code
    decreases |parameters|
  {
    if parameters != [] {
      var init := parameters[..|parameters| - 1];
      assert forall i :: 0 <= i < |init| ==> init[i] == parameters[i];
      SubstitutedOwnPlaceholders(code, init);
      var last := parameters[|parameters| - 1];
      ReplaceAllWithItself(code, Placeholder(last.key));
    }
  }

  /** A value may introduce a placeholder that a later key rewrites. */
  lemma SubstitutionChains(code: string, parameters: seq<Entry<string, string>>)
    requires code == "{{a}}" && parameters == [Entry("a", "{{b}}"), Entry("b", "x")]
    ensures Substituted(code, parameters) == "x"
  {
    var first := parameters[..1];
    assert first == [Entry("a", "{{b}}")];
    assert first[..0] == [];
    assert Placeholder("a") == "{{a}}";
    assert code[..5] == "{{a}}" && code[5..] == "";
    assert ReplaceAll(code, "{{a}}", "{{b}}") == "{{b}}" + ReplaceAll("", "{{a}}", "{{b}}");
    assert Substituted(code, first) == "{{b}}";
    var mid := "{{b}}";
    assert Placeholder("b") == mid;
    assert mid[..5] == mid && mid[5..] == "";
    assert ReplaceAll(mid, mid, "x") == "x" + ReplaceAll("", mid, "x");
  }

  /** `Math.round(done / total * 100)` on exact rationals, halves rounded up. */
  function Progress(done: nat, total: nat): (p: int)
    requires 0 < done <= total
    ensures 2 * total * p <= 200 * done + total < 2 * total * (p + 1)
  {
    var p := (200 * done + total) / (2 * total);
    Division(200 * done + total, 2 * total);
    p
  }

  lemma Division(a: int, b: int)
    requires b > 0
    ensures b * (a / b) <= a < b * (a / b + 1)
  {
  }

  lemma MulLe(a: int, b: int, c: int)
    requires a >= 0 && b <= c
    ensures a * b <= a * c
  {
  }

  /** Progress stays within 0..100 and is 100 after the last item. */
  lemma ProgressBounds(done: nat, total: nat)
    requires 0 < done <= total
    ensures 0 <= Progress(done, total) <= 100
    ensures done == total ==> Progress(done, total) == 100
  {
    var p := Progress(done, total);
    assert p >= 0 by {
      if p < 0 {
        MulLe(2 * total, p + 1, 0);
        assert false;
      }
    }
    assert p <= 100 by {
      if p > 100 {
        MulLe(2 * total, 101, p);
        assert false;
      }
    }
    if done == total {
      assert p >= 100 by {
        if p < 100 {
          MulLe(2 * total, p + 1, 100);
          assert false;
        }
      }
    }
  }

  /** Progress never goes down from one item to the next. */
  lemma ProgressMonotone(d1: nat, d2: nat, total: nat)
    requires 0 < d1 <= d2 <= total
    ensures Progress(d1, total) <= Progress(d2, total)
  {
    var p1 := Progress(d1, total);
    var p2 := Progress(d2, total);
    if p1 > p2 {
      MulLe(2 * total, p2 + 1, p1);
      assert false;
    }
  }

  /** The number of items a batch loop handles: all of them, or up to the one during which a cancellation arrived. */
  function Handled(n: nat, cancelled: nat -> bool, i: nat): (k: nat)
    requires i <= n
    ensures i <= k <= n
    ensures k < n ==> k > i && cancelled(k - 1)
    ensures forall j :: i <= j < k - 1 ==> !cancelled(j)
    decreases n - i
  {
    if i == n then n
    else if cancelled(i) then i + 1
    else Handled(n, cancelled, i + 1)
  }

  /** A text item of `batchConvert`; `type` only goes into the request and is not modelled. */
  datatype TextItem = TextItem(id: Option<string>, text: string)

  /** The outcome of `fetch('/api/generate-mermaid')` for one item. */
  datatype Response = Generated(mermaidCode: string) | HttpError(status: nat) | NetworkError(message: string)

  /** The result pushed for one item: the output on success, else the error's message. */
  function ConvertResult(item: TextItem, response: Response): (r: ItemResult)
    ensures Succeeded(r) <==> response.Generated?
    ensures (r.Converted? || r.ConvertFailed?) && r.id == item.id && r.input == item.text
  {
    match response
    case Generated(code) => Converted(item.id, item.text, code)
    case HttpError(status) => ConvertFailed(item.id, item.text, "HTTP error! status: " + NatToString(status))
    case NetworkError(message) => ConvertFailed(item.id, item.text, message)
  }

  /** The one-result-per-item list of `batchConvert` after `k` items. */
  function ConvertResults(items: seq<TextItem>, respond: nat -> Response, k: nat): (rs: seq<ItemResult>)
    requires k <= |items|
    decreases k
  {
    if k == 0 then [] else ConvertResults(items, respond, k - 1) + [ConvertResult(items[k - 1], respond(k - 1))]
  }

  /** One result per item, in input order: the `j`-th result is item `j`'s. */
  lemma {:induction false} ConvertResultsInOrder(items: seq<TextItem>, respond: nat -> Response, k: nat)
    requires k <= |items|
    ensures |ConvertResults(items, respond, k)| == k
    ensures forall j :: 0 <= j < k ==> ConvertResults(items, respond, k)[j] == ConvertResult(items[j], respond(j))
    decreases k
  {
    if k > 0 {
      ConvertResultsInOrder(items, respond, k - 1);
    }
  }

  /** The entries of one `parameters` element (`Object.entries` order). */
  type Params = seq<Entry<string, string>>

  /** The result's name: `params.name`, or `图表-<i+1>` when that is falsy. */
  function ResultName(params: Params, i: nat): (name: string)
    ensures name != ""
  {
    match Get(params, "name")
    case Some(n) => if n != "" then n else "图表-" + NatToString(i + 1)
    case None => "图表-" + NatToString(i + 1)
  }

  /** The result for parameter set `i`: its `id`, its `name` or `图表-<i+1>`, and the substituted code. */
  function AppliedResult(template: Template, templateId: string, params: Params, i: nat): (r: ItemResult)
    ensures r.Applied? && r.code == Substituted(template.code, params) && r.template == templateId
    ensures r.id == Get(params, "id")
  {
    Applied(Get(params, "id"), ResultName(params, i), Substituted(template.code, params), templateId)
  }

  /** The list a loop builds by appending `f(0)`, ..., `f(k - 1)` in turn. */
  function Appended<T>(f: nat --> T, k: nat): (rs: seq<T>)
    requires forall j :: 0 <= j < k ==> f.requires(j)
    decreases k
  {
    if k == 0 then [] else Appended(f, k - 1) + [f(k - 1)]
  }

  /** The `j`-th element appended is `f(j)`. */
  lemma {:induction false} AppendedAt<T>(f: nat --> T, k: nat, j: nat)
    requires forall i :: 0 <= i < k ==> f.requires(i)
    requires j < k
    ensures |Appended(f, k)| == k && Appended(f, k)[j] == f(j)
    decreases k
  {
    if j < k - 1 {
      AppendedAt(f, k - 1, j);
    } else {
      AppendedLength(f, k - 1);
    }
  }

  lemma {:induction false} AppendedLength<T>(f: nat --> T, k: nat)
    requires forall i :: 0 <= i < k ==> f.requires(i)
    ensures |Appended(f, k)| == k
    decreases k
  {
    if k > 0 {
      AppendedLength(f, k - 1);
    }
  }

  /** The results of `batchApplyTemplate` for the first `k` parameter sets. */
  function AppliedResults(template: Template, templateId: string, parameters: seq<Params>, k: nat): (rs: seq<ItemResult>)
    requires k <= |parameters|
  {
    Appended((i: nat) requires i < |parameters| => AppliedResult(template, templateId, parameters[i], i), k)
  }

  /** One result per parameter set, in input order. */
  lemma AppliedResultsInOrder(template: Template, templateId: string, parameters: seq<Params>, k: nat)
    requires k <= |parameters|
    ensures |AppliedResults(template, templateId, parameters, k)| == k
    ensures forall j :: 0 <= j < k ==>
              AppliedResults(template, templateId, parameters, k)[j] == AppliedResult(template, templateId, parameters[j], j)
  {
    var f := (i: nat) requires i < |parameters| => AppliedResult(template, templateId, parameters[i], i);
    AppendedLength(f, k);
    forall j | 0 <= j < k
      ensures Appended(f, k)[j] == AppliedResult(template, templateId, parameters[j], j)
    {
      AppendedAt(f, k, j);
    }
  }

  class BatchProcessor {
    var tasks: TaskTable
    /** The `templates` table that `findTemplate` searches. */
    const catalogue: Catalogue

    ghost predicate Valid()
      reads this
    {
      UniqueKeys(tasks)
    }

    constructor ()
      ensures Valid() && tasks == [] && catalogue == Templates
    {
      tasks := [];
      catalogue := Templates;
    }

    /** The task stored under `taskId`, if any. */
    function TaskOf(taskId: string): (r: Option<BatchTask>)
      reads this
      ensures r.Some? <==> Has(tasks, taskId)
    {
      Get(tasks, taskId)
    }

    /** `addTask(type)`: stores a new pending task under the generated id `id`. */
    method AddTask(kind: BatchType, id: string) returns (taskId: string)
      requires Valid()
      modifies this
      ensures Valid() && taskId == id
      ensures TaskOf(id).Some? && fresh(TaskOf(id).value)
      ensures tasks == Set(old(tasks), id, TaskOf(id).value)
      ensures var t := TaskOf(id).value;
              t.id == id && t.kind == kind && t.status == Pending && t.progress == 0
              && t.result == None && t.error == None && t.startTime == None && t.endTime == None
    {
      var task := new BatchTask(id, kind);
      SetProperties(tasks, id, task);
      tasks := Set(tasks, id, task);
      taskId := id;
    }

    /** `cancelTask(taskId)`: only a task that is processing is cancelled; anything else is left alone. */
    method CancelTask(taskId: string, now: int)
      modifies if Has(tasks, taskId) then {TaskOf(taskId).value} else {}
      ensures tasks == old(tasks)
      ensures match TaskOf(taskId)
              case None => true
              case Some(t) =>
                if old(t.status) == Processing then
                  t.status == Cancelled && t.endTime == Some(now) &&
                  t.progress == old(t.progress) && t.result == old(t.result) &&
                  t.error == old(t.error) && t.startTime == old(t.startTime)
                else unchanged(t)
    {
      match TaskOf(taskId) {
        case Some(task) =>
          if task.status == Processing {
            task.Cancel(now);
          }
        case None =>
      }
    }

    /** `clearCompletedTasks()`: deletes each finished task while walking the table. */
    method ClearCompletedTasks()
      requires Valid()
      modifies this
      ensures Valid()
      ensures tasks == Keep(old(tasks), old(FinishedFlags(tasks)))
      ensures forall e :: e in tasks <==> e in old(tasks) && !Finished(e.value.status)
    {
      ghost var start := tasks;
      ghost var flags := FinishedFlags(tasks);
      tasks := DeleteFinished(tasks);
      KeepUnique(start, flags);
      KeepUnfinished(start, flags);
    }

    /** `applyTemplateParameters(templateCode, parameters)`. */
    method ApplyTemplateParameters(templateCode: string, parameters: Params) returns (code: string)
      ensures code == Substituted(templateCode, parameters)
    {
      code := templateCode;
      for i := 0 to |parameters|
        invariant code == Substituted(templateCode, parameters[..i])
      {
        assert parameters[..i + 1][..i] == parameters[..i];
        code := ReplaceAll(code, Placeholder(parameters[i].key), parameters[i].value);
      }
      assert parameters[..|parameters|] == parameters;
    }

    /**
     * `batchConvert(textItems)`: one result per handled item, in input order;
     * the loop stops after the item during which a cancellation arrived, and
     * the task then ends COMPLETED all the same.
     */
    method BatchConvert(items: seq<TextItem>, id: string, respond: nat -> Response, cancelled: nat -> bool, now: int)
      returns (results: seq<ItemResult>)
      requires Valid()
      modifies this
      ensures Valid()
      ensures results == ConvertResults(items, respond, Handled(|items|, cancelled, 0))
      ensures TaskOf(id).Some? && fresh(TaskOf(id).value)
      ensures tasks == Set(old(tasks), id, TaskOf(id).value)
      ensures var t := TaskOf(id).value;
              t.status == Completed && t.progress == 100 && t.result == Some(results) && t.kind == Convert
    {
      var taskId := AddTask(Convert, id);
      var task := TaskOf(taskId).value;
      task.Start(now);
      results := ConvertAll(task, items, respond, cancelled, now);
      task.Complete(results, now);
    }

    /**
     * The loop of `batchConvert`: one result per item, updating the task's
     * progress; a cancellation arriving during item `i` (`cancelled(i)`)
     * cancels the task, and the loop stops before the next item.
     */
    method ConvertAll(task: BatchTask, items: seq<TextItem>, respond: nat -> Response, cancelled: nat -> bool, now: int)
      returns (results: seq<ItemResult>)
      requires TaskOf(task.id) == Some(task) && task.status == Processing
      modifies task
      ensures results == ConvertResults(items, respond, Handled(|items|, cancelled, 0))
    {
      results := [];
      var total := |items|;
      var i := 0;
      while i < |items|
        invariant 0 <= i <= |items|
        invariant results == ConvertResults(items, respond, i)
        invariant forall j :: 0 <= j < i - 1 ==> !cancelled(j)
        invariant task.status == if i > 0 && cancelled(i - 1) then Cancelled else Processing
      {
        if task.status == Cancelled {
          break;
        }
        var response := respond(i);
        if cancelled(i) {
          CancelTask(task.id, now);
        }
        results := results + [ConvertResult(items[i], response)];
        task.progress := Progress(i + 1, total);
        i := i + 1;
      }
      HandledAt(|items|, cancelled, i);
    }

    /** The loop of `batchApplyTemplate`: one result per parameter set, updating the task's progress. */
    method ApplyAll(task: BatchTask, template: Template, templateId: string, parameters: seq<Params>)
      returns (results: seq<ItemResult>)
      modifies task
      ensures results == AppliedResults(template, templateId, parameters, |parameters|)
      ensures task.status == old(task.status) && task.error == old(task.error) && task.result == old(task.result)
      ensures task.startTime == old(task.startTime) && task.endTime == old(task.endTime)
      ensures |parameters| > 0 ==> task.progress == 100
      ensures |parameters| == 0 ==> task.progress == old(task.progress)
    {
      results := [];
      var total := |parameters|;
      for i := 0 to |parameters|
        invariant results == AppliedResults(template, templateId, parameters, i)
        invariant task.status == old(task.status) && task.error == old(task.error) && task.result == old(task.result)
        invariant task.startTime == old(task.startTime) && task.endTime == old(task.endTime)
        invariant i > 0 ==> task.progress == Progress(i, total)
        invariant i == 0 ==> task.progress == old(task.progress)
      {
        var params := parameters[i];
        var code := ApplyTemplateParameters(template.code, params);
        results := results + [Applied(Get(params, "id"), ResultName(params, i), code, templateId)];
        task.progress := Progress(i + 1, total);
      }
      if total > 0 {
        ProgressBounds(total, total);
      }
    }

    /**
     * `batchApplyTemplate(templateId, parameters)`: fails the task when no
     * template has the id; otherwise one result per parameter set, in order.
     * The loop awaits nothing, so no cancellation can arrive while it runs and
     * its check for a cancelled task never fires: every parameter set is handled.
     */
    method BatchApplyTemplate(templateId: string, parameters: seq<Params>, id: string, now: int)
      returns (r: Result<seq<ItemResult>, string>)
      requires Valid()
      modifies this
      ensures Valid()
      ensures TaskOf(id).Some? && fresh(TaskOf(id).value)
      ensures tasks == Set(old(tasks), id, TaskOf(id).value)
      ensures r.Err? <==> FindTemplateIn(catalogue, templateId).None?
      ensures r.Err? ==> r.error == "模板未找到: " + templateId
                         && TaskOf(id).value.status == Failed && TaskOf(id).value.error == Some(r.error)
                         && TaskOf(id).value.progress == 0
      ensures r.Ok? ==> r.value == AppliedResults(FindTemplateIn(catalogue, templateId).value, templateId, parameters,
                                                  |parameters|)
                        && TaskOf(id).value.status == Completed && TaskOf(id).value.result == Some(r.value)
                        && TaskOf(id).value.progress == 100
    {
      var taskId := AddTask(ApplyTemplate, id);
      var task := TaskOf(taskId).value;
      task.Start(now);
      var template := FindTemplateIn(catalogue, templateId);
      if template.None? {
        var message := "模板未找到: " + templateId;
        task.Fail(message, now);
        return Err(message);
      }
      var results := ApplyAll(task, template.value, templateId, parameters);
      task.Complete(results, now);
      r := Ok(results);
    }
  }

  /** Where a batch loop that handled `i` items stopped: at the end, or right after a cancellation. */
  lemma HandledAt(n: nat, cancelled: nat -> bool, i: nat)
    requires i <= n && (i == n || (i > 0 && cancelled(i - 1)))
    requires forall j :: 0 <= j < i - 1 ==> !cancelled(j)
    ensures Handled(n, cancelled, 0) == i
  {
    HandledFrom(n, cancelled, 0, i);
  }

  lemma {:induction false} HandledFrom(n: nat, cancelled: nat -> bool, k: nat, i: nat)
    requires k <= i <= n && (i == n || (i > k && cancelled(i - 1)))
    requires forall j :: k <= j < i - 1 ==> !cancelled(j)
    ensures Handled(n, cancelled, k) == i
    decreases n - k
  {
    if k < n && !cancelled(k) {
      HandledFrom(n, cancelled, k + 1, i);
    }
  }
}
