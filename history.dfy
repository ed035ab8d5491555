/**
 * `HistoryManager` of lib/history-manager.js: the version store. Records live
 * in a `Map` from id to record, modelled as `Table`, a list of entries in
 * insertion order. Writes go through the class `HistoryManager`; the queries
 * are functions of the table. The clock, generated ids and formatted times
 * are parameters, and the editor state is passed in explicitly.
 */
module History {
  import opened Wrappers
  import opened Text
  import opened InsertionMap
  import opened Sorting
  import opened HistoryRecords
  import Store

  /** `maxRecords`. */
  const MAX_RECORDS: nat := 100
  const ONE_DAY: int := 24 * 60 * 60 * 1000

  type Table = seq<Entry<string, HistoryRecord>>

  /** The store's invariant: ids are unique keys, and every record sits under its own id. */
  ghost predicate Stored(t: Table) {
    UniqueKeys(t) && forall e :: e in t ==> e.key == e.value.id
  }

  function Timestamp(r: HistoryRecord): int {
    r.timestamp
  }

  function Id(r: HistoryRecord): string {
    r.id
  }

  // ---------------------------------------------------------------------------
  // getAllRecords / getLatestRecord / getRecord

  /** `getAllRecords()`: every record, newest first; equal timestamps keep insertion order. */
  function AllRecords(t: Table): (rs: seq<HistoryRecord>)
    ensures SortedDesc(rs, Timestamp)
    ensures multiset(rs) == multiset(Values(t))
    ensures |rs| == |t|
  {
    var rs := SortDesc(Values(t), Timestamp);
    assert |multiset(rs)| == |multiset(Values(t))|;
    rs
  }

  /** The records of a well-formed table have distinct ids, and each is what `get` returns for its id. */
  lemma AllRecordsStored(t: Table)
    requires Stored(t)
    ensures |AllRecords(t)| == |t|
    ensures DistinctBy(AllRecords(t), Id)
    ensures forall r :: r in AllRecords(t) ==> Get(t, r.id) == Some(r)
  {
    var vs := Values(t);
    forall i, j | 0 <= i < j < |vs|
      ensures Id(vs[i]) != Id(vs[j])
    {
      assert t[i] in t && t[j] in t;
    }
    SortDistinct(vs, Timestamp, Id);
    forall r | r in AllRecords(t)
      ensures Get(t, r.id) == Some(r)
    {
      SortMembers(vs, Timestamp, r);
      var i :| 0 <= i < |vs| && vs[i] == r;
      assert t[i] in t;
      GetAt(t, i);
    }
  }

  /** A record is listed by `getAllRecords()` exactly when it is stored. */
  lemma AllRecordsMembers(t: Table, r: HistoryRecord)
    ensures r in AllRecords(t) <==> r in Values(t)
  {
    SortMembers(Values(t), Timestamp, r);
  }

  /** `getLatestRecord()`: a record with the greatest timestamp, or `null` for an empty store. */
  function LatestRecord(t: Table): (r: Option<HistoryRecord>)
    ensures r.Some? <==> t != []
    ensures r.Some? ==> r.value in Values(t)
    ensures r.Some? ==> forall k :: 0 <= k < |t| ==> t[k].value.timestamp <= r.value.timestamp
  {
    var rs := AllRecords(t);
    if |rs| > 0 then
      AllRecordsMembers(t, rs[0]);
      assert forall k :: 0 <= k < |t| ==> t[k].value.timestamp <= rs[0].timestamp by {
        forall k | 0 <= k < |t|
          ensures t[k].value.timestamp <= rs[0].timestamp
        {
          assert Values(t)[k] == t[k].value;
          AllRecordsMembers(t, t[k].value);
          var j :| 0 <= j < |rs| && rs[j] == t[k].value;
        }
      }
      Some(rs[0])
    else
      None
  }

  // ---------------------------------------------------------------------------
  // addRecord / removeOldestRecord

  /** The earliest record strictly before `now` among the first `i` entries, as the scan leaves it. */
  datatype Candidate = Candidate(index: Option<nat>, time: int)

  /**
   * The state of `removeOldestRecord`'s scan after the first `i` entries: the
   * chosen entry is strictly before `now`, no scanned entry is earlier, and on
   * a tie the first one in iteration order wins.
   */
  function OldestUpTo(t: Table, i: nat, now: int): (c: Candidate)
    requires i <= |t|
    ensures c.index.None? ==> c.time == now
    ensures c.index.Some? ==> c.index.value < i && c.time == t[c.index.value].value.timestamp < now
    ensures forall k :: 0 <= k < i ==> t[k].value.timestamp >= c.time
    ensures c.index.Some? ==> forall k :: 0 <= k < c.index.value ==> t[k].value.timestamp > c.time
    decreases i
  {
    if i == 0 then Candidate(None, now)
    else
      var c := OldestUpTo(t, i - 1, now);
      if t[i - 1].value.timestamp < c.time then Candidate(Some(i - 1), t[i - 1].value.timestamp) else c
  }

  /** The table after `removeOldestRecord()` at time `now`; an empty-string id counts as none. */
  function WithoutOldest(t: Table, now: int): Table {
    match OldestUpTo(t, |t|, now).index
    case Some(j) => if t[j].key != "" then Delete(t, t[j].key) else t
    case None => t
  }

  /** The table after `addRecord(record)` at time `now`: store under the id, then evict once over the cap. */
  function Added(t: Table, record: HistoryRecord, now: int): Table {
    var s := Set(t, record.id, record);
    if |s| > MAX_RECORDS then WithoutOldest(s, now) else s
  }

  lemma WithoutOldestStored(t: Table, now: int)
    requires Stored(t)
    ensures Stored(WithoutOldest(t, now))
    ensures |WithoutOldest(t, now)| >= |t| - 1
  {
    match OldestUpTo(t, |t|, now).index
    case None => {}
    case Some(j) => {
      DeleteProperties(t, t[j].key);
      DeleteEntries(t, t[j].key);
    }
  }

  /** `addRecord` keeps the table well-formed. */
  lemma AddedStored(t: Table, record: HistoryRecord, now: int)
    requires Stored(t)
    ensures Stored(Added(t, record, now))
  {
    SetProperties(t, record.id, record);
    SetEntries(t, record.id, record);
    WithoutOldestStored(Set(t, record.id, record), now);
  }

  /** The eviction removes exactly the entry the scan chose: the earliest before `now`, the first on ties. */
  lemma EvictionRemovesOldest(t: Table, now: int, j: nat)
    requires UniqueKeys(t) && OldestUpTo(t, |t|, now).index == Some(j) && t[j].key != ""
    ensures WithoutOldest(t, now) == t[..j] + t[j + 1..]
    ensures t[j].value.timestamp < now
    ensures forall k :: 0 <= k < |t| ==> t[k].value.timestamp >= t[j].value.timestamp
    ensures forall k :: 0 <= k < j ==> t[k].value.timestamp > t[j].value.timestamp
  {
    GetAt(t, j);
  }

  /** When no record is strictly older than `now`, nothing is evicted. */
  lemma NoEvictionWithoutCandidate(t: Table, now: int)
    requires forall k :: 0 <= k < |t| ==> t[k].value.timestamp >= now
    ensures WithoutOldest(t, now) == t
  {
  }

  /** Saving under an id that is already stored replaces that record where it stands; the store does not grow. */
  lemma AddExistingId(t: Table, record: HistoryRecord, now: int)
    requires Stored(t) && Has(t, record.id) && |t| <= MAX_RECORDS
    ensures Added(t, record, now) == Set(t, record.id, record)
    ensures Keys(Added(t, record, now)) == Keys(t)
    ensures Get(Added(t, record, now), record.id) == Some(record)
  {
    SetProperties(t, record.id, record);
  }

  /** Below the cap, a record with a new id is appended at the end. */
  lemma AddNewIdBelowCap(t: Table, record: HistoryRecord, now: int)
    requires !Has(t, record.id) && |t| < MAX_RECORDS
    ensures Added(t, record, now) == t + [Entry(record.id, record)]
  {
  }

  /** From at most the cap, `addRecord` ends at most one over it, and at the cap when every id is non-empty and the new record predates `now`. */
  lemma AddedSize(t: Table, record: HistoryRecord, now: int)
    requires Stored(t) && |t| <= MAX_RECORDS
    ensures |Added(t, record, now)| <= MAX_RECORDS + 1
    ensures record.id != "" && record.timestamp < now && (forall k :: 0 <= k < |t| ==> t[k].key != "")
            ==> |Added(t, record, now)| <= MAX_RECORDS
  {
    SetProperties(t, record.id, record);
    var s := Set(t, record.id, record);
    assert |Keys(s)| == |s|;
    if |s| > MAX_RECORDS {
      assert |s| == MAX_RECORDS + 1;
      if record.id != "" && record.timestamp < now && (forall k :: 0 <= k < |t| ==> t[k].key != "") {
        assert s == t + [Entry(record.id, record)];
        var c := OldestUpTo(s, |s|, now);
        assert s[|s| - 1].value.timestamp < now;
        assert c.index.Some?;
        var j := c.index.value;
        assert s[j].key != "";
        DeleteProperties(s, s[j].key);
        assert Has(s, s[j].key) by { assert Keys(s)[j] == s[j].key; }
      }
    }
  }

  /**
   * The record being added can itself be the victim: at the cap, a new record
   * older than every stored one and than `now` is evicted at once.
   */
  lemma NewRecordCanBeEvicted(t: Table, record: HistoryRecord, now: int)
    requires |t| == MAX_RECORDS && !Has(t, record.id) && record.id != ""
    requires record.timestamp < now
    requires forall k :: 0 <= k < |t| ==> t[k].value.timestamp > record.timestamp
    ensures Added(t, record, now) == t
  {
    var s := t + [Entry(record.id, record)];
    assert Set(t, record.id, record) == s;
    forall k | 0 <= k < |t|
      ensures s[k].value.timestamp > s[|t|].value.timestamp
    {
      assert s[k] == t[k];
    }
    OldestIsLast(s, |t|, now);
    DeleteAfterPrefix(t, [Entry(record.id, record)]);
    assert t + [Entry(record.id, record)][1..] == t;
  }

  /** The last entry is the one removed when it is older than `now` and than every entry before it. */
  lemma OldestIsLast(s: Table, n: nat, now: int)
    requires |s| == n + 1 && s[n].value.timestamp < now
    requires forall k :: 0 <= k < n ==> s[k].value.timestamp > s[n].value.timestamp
    ensures OldestUpTo(s, |s|, now).index == Some(n)
  {
    var c := OldestUpTo(s, n, now);
    assert c.time > s[n].value.timestamp;
  }

  // ---------------------------------------------------------------------------
  // Record construction for autoSave / manualSave / restoreRecord

  const AutoSaveTitlePrefix: string := "自动保存 "
  const ManualSaveTitlePrefix: string := "手动保存 "
  const RestoreTitlePrefix: string := "恢复到: "

  /** `autoSave()` saves nothing when the editor is empty or the newest record holds the same code and input. */
  predicate AutoSaveSkips(t: Table, editor: Store.Editor) {
    || (editor.mermaidCode == "" && editor.inputText == "")
    || (LatestRecord(t).Some?
        && LatestRecord(t).value.mermaidCode == editor.mermaidCode
        && LatestRecord(t).value.inputText == editor.inputText)
  }

  /** The record `autoSave()` builds from the editor and the render mode. */
  function AutoSaveRecord(editor: Store.Editor, ui: Store.Ui, env: Env): (r: HistoryRecord)
    ensures r.autoSaved && r.id == OrString(None, env.id) && r.timestamp == env.now
    ensures r.mermaidCode == editor.mermaidCode && r.inputText == editor.inputText
    ensures r.title == AutoSaveTitlePrefix + env.clock
    ensures r.diagramType == OrString(Some(editor.diagramType), "auto")
    ensures r.renderMode == OrString(Some(ui.renderMode), "excalidraw")
  {
    NewRecord(RecordData(None, None, Some(AutoSaveTitlePrefix + env.clock), None, Some(editor.mermaidCode),
      Some(editor.inputText), Some(editor.diagramType), Some(ui.renderMode), None, None, None, Some(true)), env)
  }

  /** The record `manualSave(title, description, tags)` builds; an empty title gets a dated default. */
  function ManualSaveRecord(title: string, description: string, tags: seq<string>, editor: Store.Editor,
                            ui: Store.Ui, env: Env): (r: HistoryRecord)
    ensures !r.autoSaved && r.id == env.id && r.timestamp == env.now
    ensures r.title == if title != "" then title else ManualSaveTitlePrefix + env.clock
    ensures r.description == description && r.tags == tags
    ensures r.mermaidCode == editor.mermaidCode && r.inputText == editor.inputText
  {
    NewRecord(RecordData(None, None, Some(if title != "" then title else ManualSaveTitlePrefix + env.clock),
      Some(description), Some(editor.mermaidCode), Some(editor.inputText), Some(editor.diagramType),
      Some(ui.renderMode), Some(tags), None, None, Some(false)), env)
  }

  /** The record `restoreRecord(id)` adds for a stored record; `originalTime` is its formatted timestamp. */
  function RestoreRecordOf(original: HistoryRecord, env: Env, originalTime: string): (r: HistoryRecord)
    ensures !r.autoSaved && r.id == env.id && r.timestamp == env.now
    ensures r.mermaidCode == original.mermaidCode && r.inputText == original.inputText
    ensures r.diagramType == OrString(Some(original.diagramType), "auto")
    ensures r.renderMode == OrString(Some(original.renderMode), "excalidraw")
    ensures r.parentId == if original.id != "" then Some(original.id) else None
    ensures r.title == RestoreTitlePrefix + original.title
  {
    NewRecord(RecordData(None, None, Some(RestoreTitlePrefix + original.title),
      Some("从 " + originalTime + " 的版本恢复"), Some(original.mermaidCode), Some(original.inputText),
      Some(original.diagramType), Some(original.renderMode), None, None, Some(original.id), None), env)
  }

  /** When the editor has changed, `autoSave()` adds exactly one auto-saved record (here below the cap, with a new id). */
  lemma AutoSaveAddsOne(t: Table, editor: Store.Editor, ui: Store.Ui, env: Env, evictNow: int)
    requires !AutoSaveSkips(t, editor) && !Has(t, env.id) && |t| < MAX_RECORDS
    ensures Added(t, AutoSaveRecord(editor, ui, env), evictNow) == t + [Entry(env.id, AutoSaveRecord(editor, ui, env))]
    ensures AutoSaveRecord(editor, ui, env).autoSaved
  {
  }

  /** Restoring leaves the original record in place when the new id is different and nothing is evicted. */
  lemma RestoreKeepsOriginal(t: Table, id: string, env: Env, evictNow: int, originalTime: string)
    requires Stored(t) && Has(t, id) && env.id != id && |t| < MAX_RECORDS
    ensures var restored := RestoreRecordOf(Get(t, id).value, env, originalTime);
            Get(Added(t, restored, evictNow), id) == Get(t, id)
            && (id != "" ==> restored.parentId == Some(id))
  {
    var original := Get(t, id).value;
    var k :| 0 <= k < |t| && t[k].key == id;
    GetAt(t, k);
    assert t[k] in t;
    var restored := RestoreRecordOf(original, env, originalTime);
    SetProperties(t, restored.id, restored);
  }

  /**
   * A full store whose records are all newer than a manual save's clock
   * reading evicts the saved record itself, once the clock has moved on by
   * the time `addRecord` evicts: the table is left as it was.
   */
  lemma ManualSaveCanEvictItself(t: Table, title: string, description: string, tags: seq<string>,
                                 editor: Store.Editor, ui: Store.Ui, env: Env, evictNow: int)
    requires |t| == MAX_RECORDS && !Has(t, env.id) && env.id != "" && env.now < evictNow
    requires forall k :: 0 <= k < |t| ==> t[k].value.timestamp > env.now
    ensures Added(t, ManualSaveRecord(title, description, tags, editor, ui, env), evictNow) == t
  {
    NewRecordCanBeEvicted(t, ManualSaveRecord(title, description, tags, editor, ui, env), evictNow);
  }

  /** The same for the record of an automatic save. */
  lemma AutoSaveCanEvictItself(t: Table, editor: Store.Editor, ui: Store.Ui, env: Env, evictNow: int)
    requires |t| == MAX_RECORDS && !Has(t, env.id) && env.id != "" && env.now < evictNow
    requires forall k :: 0 <= k < |t| ==> t[k].value.timestamp > env.now
    ensures Added(t, AutoSaveRecord(editor, ui, env), evictNow) == t
  {
    NewRecordCanBeEvicted(t, AutoSaveRecord(editor, ui, env), evictNow);
  }

  /** The same for the record a restore adds. */
  lemma RestoreCanEvictItself(t: Table, original: HistoryRecord, env: Env, evictNow: int, originalTime: string)
    requires |t| == MAX_RECORDS && !Has(t, env.id) && env.id != "" && env.now < evictNow
    requires forall k :: 0 <= k < |t| ==> t[k].value.timestamp > env.now
    ensures Added(t, RestoreRecordOf(original, env, originalTime), evictNow) == t
  {
    NewRecordCanBeEvicted(t, RestoreRecordOf(original, env, originalTime), evictNow);
  }

  // ---------------------------------------------------------------------------
  // searchRecords

  /** A filter value for `autoSaved`, compared with `===`: a boolean or whatever the caller passed. */
  datatype JsValue = JsBool(b: bool) | JsString(s: string)

  /** A `dateRange` filter: each bound present when the string is non-empty, as its parsed time. */
  datatype DateRange = DateRange(start: Option<int>, end: Option<int>)

  /** The `filters` object: `None` is an absent key; unknown keys are ignored and not modelled. */
  datatype Filters = Filters(
    autoSaved: Option<JsValue>,
    diagramType: Option<string>,
    renderMode: Option<string>,
    dateRange: Option<DateRange>,
    tags: Option<seq<string>>)

  const NoFilters: Filters := Filters(None, None, None, None, None)

  /** The text search: an empty query matches; otherwise the lowercased query is in one of four fields. */
  predicate QueryMatches(r: HistoryRecord, query: string) {
    var q := Lower(query);
    || query == ""
    || Contains(Lower(r.title), q)
    || Contains(Lower(r.description), q)
    || Contains(Lower(r.mermaidCode), q)
    || Contains(Lower(r.inputText), q)
  }

  /** Every present filter holds; an empty type or mode, or an empty tag list, does not filter. */
  predicate FiltersMatch(r: HistoryRecord, f: Filters) {
    && (f.autoSaved.None? || f.autoSaved.value == JsBool(r.autoSaved))
    && (f.diagramType.None? || f.diagramType.value == "" || r.diagramType == f.diagramType.value)
    && (f.renderMode.None? || f.renderMode.value == "" || r.renderMode == f.renderMode.value)
    && (f.dateRange.None?
        || ((f.dateRange.value.start.None? || r.timestamp >= f.dateRange.value.start.value)
            && (f.dateRange.value.end.None? || r.timestamp <= f.dateRange.value.end.value)))
    && (f.tags.None? || f.tags.value == [] || exists i :: 0 <= i < |f.tags.value| && f.tags.value[i] in r.tags)
  }

  /** The filter of `searchRecords` over a list of records, keeping their order. */
  function Select(rs: seq<HistoryRecord>, query: string, f: Filters): (out: seq<HistoryRecord>)
    ensures |out| <= |rs|
    ensures forall r :: r in out <==> r in rs && QueryMatches(r, query) && FiltersMatch(r, f)
    decreases |rs|
  {
    if rs == [] then []
    else
      var rest := Select(rs[1..], query, f);
      assert rs == [rs[0]] + rs[1..];
      if QueryMatches(rs[0], query) && FiltersMatch(rs[0], f) then [rs[0]] + rest else rest
  }

  /** `searchRecords(query, filters)`. */
  function Search(t: Table, query: string, f: Filters): seq<HistoryRecord> {
    Select(AllRecords(t), query, f)
  }

  lemma {:induction false} SelectSorted(rs: seq<HistoryRecord>, query: string, f: Filters)
    requires SortedDesc(rs, Timestamp)
    ensures SortedDesc(Select(rs, query, f), Timestamp)
    decreases |rs|
  {
    if rs != [] {
      assert SortedDesc(rs[1..], Timestamp) by {
        forall i, j | 0 <= i < j < |rs[1..]|
          ensures Timestamp(rs[1..][i]) >= Timestamp(rs[1..][j])
        {
          assert rs[1..][i] == rs[i + 1] && rs[1..][j] == rs[j + 1];
        }
      }
      SelectSorted(rs[1..], query, f);
      var rest := Select(rs[1..], query, f);
      forall j | 0 <= j < |rest|
        ensures Timestamp(rs[0]) >= Timestamp(rest[j])
      {
        assert rest[j] in rs[1..];
        var k :| 0 <= k < |rs[1..]| && rs[1..][k] == rest[j];
        assert rs[k + 1] == rest[j];
      }
    }
  }

  lemma {:induction false} SelectAll(rs: seq<HistoryRecord>)
    ensures Select(rs, "", NoFilters) == rs
    decreases |rs|
  {
    if rs != [] {
      SelectAll(rs[1..]);
      assert [rs[0]] + rs[1..] == rs;
    }
  }

  /**
   * `searchRecords` returns exactly the stored records that satisfy the query
   * and every filter, newest first; with an empty query and no filters it is
   * `getAllRecords()`.
   */
  lemma SearchProperties(t: Table, query: string, f: Filters)
    ensures forall r :: r in Search(t, query, f) <==> r in Values(t) && QueryMatches(r, query) && FiltersMatch(r, f)
    ensures SortedDesc(Search(t, query, f), Timestamp)
    ensures Search(t, "", NoFilters) == AllRecords(t)
  {
    forall r
      ensures r in AllRecords(t) <==> r in Values(t)
    {
      AllRecordsMembers(t, r);
    }
    SelectSorted(AllRecords(t), query, f);
    SelectAll(AllRecords(t));
  }

  /** An `autoSaved` filter holding anything but a boolean matches no record. */
  lemma NonBooleanAutoSavedMatchesNothing(t: Table, query: string, f: Filters)
    requires f.autoSaved.Some? && f.autoSaved.value.JsString?
    ensures Search(t, query, f) == []
  {
    var out := Search(t, query, f);
    assert out != [] ==> out[0] in out && !FiltersMatch(out[0], f);
  }

  // ---------------------------------------------------------------------------
  // compareRecords

  datatype Differences = Differences(
    title: bool,
    mermaidCode: bool,
    inputText: bool,
    diagramType: bool,
    renderMode: bool,
    timeDiff: nat,
    codeSizeDiff: int,
    inputSizeDiff: int)

  datatype Comparison = Comparison(record1: HistoryRecord, record2: HistoryRecord, differences: Differences)

  function Abs(x: int): (r: nat)
    ensures r == x || r == -x
  {
    if x < 0 then -x else x
  }

  /** The `differences` object of two records. */
  function Diff(a: HistoryRecord, b: HistoryRecord): Differences {
    Differences(a.title != b.title, a.mermaidCode != b.mermaidCode, a.inputText != b.inputText,
      a.diagramType != b.diagramType, a.renderMode != b.renderMode, Abs(a.timestamp - b.timestamp),
      |a.mermaidCode| - |b.mermaidCode|, |a.inputText| - |b.inputText|)
  }

  /** `compareRecords(id1, id2)`: fails unless both ids are stored. */
  function Compare(t: Table, id1: string, id2: string): (r: Result<Comparison, string>)
    ensures r.Ok? <==> Has(t, id1) && Has(t, id2)
    ensures r.Ok? ==> Get(t, id1) == Some(r.value.record1) && Get(t, id2) == Some(r.value.record2)
    ensures r.Ok? ==> r.value.differences == Diff(r.value.record1, r.value.record2)
  {
    match (Get(t, id1), Get(t, id2))
    case (Some(a), Some(b)) => Ok(Comparison(a, b, Diff(a, b)))
    case _ => Err("记录未找到")
  }

  /** Swapping the two ids keeps the flags and the time difference and negates the size differences. */
  lemma CompareSymmetric(t: Table, id1: string, id2: string)
    requires Compare(t, id1, id2).Ok?
    ensures var d := Compare(t, id1, id2).value.differences;
            var e := Compare(t, id2, id1).value.differences;
            && e.title == d.title && e.mermaidCode == d.mermaidCode && e.inputText == d.inputText
            && e.diagramType == d.diagramType && e.renderMode == d.renderMode
            && e.timeDiff == d.timeDiff
            && e.codeSizeDiff == -d.codeSizeDiff && e.inputSizeDiff == -d.inputSizeDiff
  {
  }

  /** A record compared with itself differs in nothing. */
  lemma CompareWithItself(t: Table, id: string)
    requires Has(t, id)
    ensures Compare(t, id, id).Ok?
    ensures Compare(t, id, id).value.differences == Differences(false, false, false, false, false, 0, 0, 0)
  {
  }

  /** Each flag says exactly whether that field differs. */
  lemma DiffFlags(a: HistoryRecord, b: HistoryRecord)
    ensures !Diff(a, b).title <==> a.title == b.title
    ensures !Diff(a, b).mermaidCode <==> a.mermaidCode == b.mermaidCode
    ensures Diff(a, b).timeDiff == 0 <==> a.timestamp == b.timestamp
  {
  }

  // ---------------------------------------------------------------------------
  // getStatistics / getMostUsedDiagramTypes

  function CountAutoSaved(rs: seq<HistoryRecord>): (n: nat)
    ensures n <= |rs|
    decreases |rs|
  {
    if rs == [] then 0 else (if rs[0].autoSaved then 1 else 0) + CountAutoSaved(rs[1..])
  }

  function CountManual(rs: seq<HistoryRecord>): (n: nat)
    ensures n <= |rs|
    decreases |rs|
  {
    if rs == [] then 0 else (if !rs[0].autoSaved then 1 else 0) + CountManual(rs[1..])
  }

  /** The records younger than `window` milliseconds at `now`. */
  function CountRecent(rs: seq<HistoryRecord>, now: int, window: int): (n: nat)
    ensures n <= |rs|
    decreases |rs|
  {
    if rs == [] then 0 else (if now - rs[0].timestamp < window then 1 else 0) + CountRecent(rs[1..], now, window)
  }

  function SumComplexity(rs: seq<HistoryRecord>): nat
    decreases |rs|
  {
    if rs == [] then 0 else Complexity(rs[0].mermaidCode) + SumComplexity(rs[1..])
  }

  function SumCodeLines(rs: seq<HistoryRecord>): nat
    decreases |rs|
  {
    if rs == [] then 0 else CodeLineCount(rs[0].mermaidCode) + SumCodeLines(rs[1..])
  }

  /** `Math.round(sum / n)`: the integer nearest to the mean, halves rounded up. */
  function RoundedMean(sum: int, n: nat): (r: int)
    requires n > 0
    ensures 2 * n * r <= 2 * sum + n < 2 * n * (r + 1)
  {
    var q := (2 * sum + n) / (2 * n);
    DivBounds(2 * sum + n, 2 * n);
    q
  }

  lemma DivBounds(a: int, b: int)
    requires b > 0
    ensures b * (a / b) <= a < b * (a / b + 1)
  {
  }

  lemma {:induction false} AutoSavedPlusManual(rs: seq<HistoryRecord>)
    ensures CountAutoSaved(rs) + CountManual(rs) == |rs|
    decreases |rs|
  {
    if rs != [] {
      AutoSavedPlusManual(rs[1..]);
    }
  }

  /** A wider window counts at least as many records. */
  lemma {:induction false} CountRecentMonotone(rs: seq<HistoryRecord>, now: int, w1: int, w2: int)
    requires w1 <= w2
    ensures CountRecent(rs, now, w1) <= CountRecent(rs, now, w2)
    decreases |rs|
  {
    if rs != [] {
      CountRecentMonotone(rs[1..], now, w1, w2);
    }
  }

  /** The number of records of a diagram type among the first `i`. */
  function CountTypeUpTo(rs: seq<HistoryRecord>, i: nat, diagramType: string): nat
    requires i <= |rs|
    decreases i
  {
    if i == 0 then 0
    else CountTypeUpTo(rs, i - 1, diagramType) + (if rs[i - 1].diagramType == diagramType then 1 else 0)
  }

  /** `x || 0` for a looked-up count. */
  function OrZero(x: Option<int>): int {
    match x case Some(c) => c case None => 0
  }

  /** `types[type]`. */
  function Lookup(m: seq<Entry<string, int>>, ty: string): Option<int> {
    Get(m, ty)
  }

  /** `types[type] = (types[type] || 0) + 1`. */
  function Bump(m: seq<Entry<string, int>>, ty: string): seq<Entry<string, int>> {
    Set(m, ty, OrZero(Get(m, ty)) + 1)
  }

  /** The tally built by applying `step` to the types of the first `i` records, in order. */
  function TallyWith(rs: seq<HistoryRecord>, i: nat, step: (seq<Entry<string, int>>, string) -> seq<Entry<string, int>>)
    : seq<Entry<string, int>>
    requires i <= |rs|
    decreases i
  {
    if i == 0 then [] else step(TallyWith(rs, i - 1, step), rs[i - 1].diagramType)
  }

  /** The `records.forEach` loop over the first `i` records: the count of every type seen, in first-seen order. */
  function TallyUpTo(rs: seq<HistoryRecord>, i: nat): seq<Entry<string, int>>
    requires i <= |rs|
  {
    TallyWith(rs, i, Bump)
  }

  /**
   * Looked up with `lookup`, the empty tally holds nothing, and `step` raises
   * the count of its type by one and leaves every other count alone.
   */
  ghost predicate CountsOneMore(step: (seq<Entry<string, int>>, string) -> seq<Entry<string, int>>,
                                lookup: (seq<Entry<string, int>>, string) -> Option<int>) {
    && (forall k :: lookup([], k) == None)
    && (forall m, seen, k :: lookup(step(m, seen), k) == if k == seen then Some(OrZero(lookup(m, seen)) + 1) else lookup(m, k))
  }

  ghost predicate KeepsKeysUnique(step: (seq<Entry<string, int>>, string) -> seq<Entry<string, int>>) {
    forall m, seen :: UniqueKeys(m) ==> UniqueKeys(step(m, seen))
  }

  lemma BumpCounts()
    ensures CountsOneMore(Bump, Lookup)
  {
    forall m, seen, k
      ensures Lookup(Bump(m, seen), k) == if k == seen then Some(OrZero(Lookup(m, seen)) + 1) else Lookup(m, k)
    {
      BumpLookup(m, seen, k);
    }
  }

  lemma BumpKeepsKeysUnique()
    ensures KeepsKeysUnique(Bump)
  {
    forall m, seen | UniqueKeys(m)
      ensures UniqueKeys(Bump(m, seen))
    {
      SetProperties(m, seen, OrZero(Get(m, seen)) + 1);
    }
  }

  lemma BumpLookup(m: seq<Entry<string, int>>, seen: string, k: string)
    ensures Lookup(Bump(m, seen), k) == if k == seen then Some(OrZero(Lookup(m, seen)) + 1) else Lookup(m, k)
  {
    SetGet(m, seen, OrZero(Get(m, seen)) + 1, k);
  }

  /** A tally built with such a step holds, for each type, the number of records of that type. */
  lemma {:induction false} TallyWithCounts(rs: seq<HistoryRecord>, i: nat,
                                           step: (seq<Entry<string, int>>, string) -> seq<Entry<string, int>>,
                                           lookup: (seq<Entry<string, int>>, string) -> Option<int>, ty: string)
    requires i <= |rs| && CountsOneMore(step, lookup)
    ensures lookup(TallyWith(rs, i, step), ty) == if CountTypeUpTo(rs, i, ty) > 0 then Some(CountTypeUpTo(rs, i, ty)) else None
    decreases i
  {
    if i > 0 {
      var seen := rs[i - 1].diagramType;
      TallyWithCounts(rs, i - 1, step, lookup, seen);
      TallyWithCounts(rs, i - 1, step, lookup, ty);
    }
  }

  lemma {:induction false} TallyWithUnique(rs: seq<HistoryRecord>, i: nat,
                                           step: (seq<Entry<string, int>>, string) -> seq<Entry<string, int>>)
    requires i <= |rs| && KeepsKeysUnique(step)
    ensures UniqueKeys(TallyWith(rs, i, step))
    decreases i
  {
    if i > 0 {
      TallyWithUnique(rs, i - 1, step);
    }
  }

  /** The tally holds each type once, with the number of records of that type. */
  lemma TallyCounts(rs: seq<HistoryRecord>, i: nat)
    requires i <= |rs|
    ensures UniqueKeys(TallyUpTo(rs, i))
    ensures forall ty :: Get(TallyUpTo(rs, i), ty) == if CountTypeUpTo(rs, i, ty) > 0 then Some(CountTypeUpTo(rs, i, ty)) else None
  {
    forall ty
      ensures UniqueKeys(TallyUpTo(rs, i))
      ensures Get(TallyUpTo(rs, i), ty) == if CountTypeUpTo(rs, i, ty) > 0 then Some(CountTypeUpTo(rs, i, ty)) else None
    {
      TallyCountOf(rs, i, ty);
    }
    TallyCountOf(rs, i, "");
  }

  lemma TallyCountOf(rs: seq<HistoryRecord>, i: nat, ty: string)
    requires i <= |rs|
    ensures UniqueKeys(TallyUpTo(rs, i))
    ensures Get(TallyUpTo(rs, i), ty) == if CountTypeUpTo(rs, i, ty) > 0 then Some(CountTypeUpTo(rs, i, ty)) else None
  {
    BumpCounts();
    BumpKeepsKeysUnique();
    TallyWithCounts(rs, i, Bump, Lookup, ty);
    TallyWithUnique(rs, i, Bump);
  }

  function Occurrences(e: Entry<string, int>): int {
    e.value
  }

  /** `getMostUsedDiagramTypes(records)`: the type counts, most frequent first (stable), at most five. */
  function MostUsedTypes(rs: seq<HistoryRecord>): seq<Entry<string, int>> {
    var sorted := SortDesc(TallyUpTo(rs, |rs|), Occurrences);
    if |sorted| <= 5 then sorted else sorted[..5]
  }

  /** At most five entries, by non-increasing count, taken from the front of the sorted tally. */
  lemma MostUsedTypesShape(rs: seq<HistoryRecord>)
    ensures |MostUsedTypes(rs)| <= 5
    ensures SortedDesc(MostUsedTypes(rs), Occurrences)
    ensures MostUsedTypes(rs) == SortDesc(TallyUpTo(rs, |rs|), Occurrences)[..|MostUsedTypes(rs)|]
  {
    var sorted := SortDesc(TallyUpTo(rs, |rs|), Occurrences);
    if |sorted| > 5 {
      SortedPrefix(sorted, Occurrences, 5);
    } else {
      assert sorted[..|sorted|] == sorted;
    }
  }

  lemma MostUsedInTally(rs: seq<HistoryRecord>, e: Entry<string, int>)
    requires e in MostUsedTypes(rs)
    ensures e in TallyUpTo(rs, |rs|)
  {
    MostUsedTypesShape(rs);
    SortMembers(TallyUpTo(rs, |rs|), Occurrences, e);
  }

  /** Each listed count is the number of records of that type. */
  lemma MostUsedTypesCounts(rs: seq<HistoryRecord>, e: Entry<string, int>)
    requires e in MostUsedTypes(rs)
    ensures e.value == CountTypeUpTo(rs, |rs|, e.key) > 0
  {
    var m := TallyUpTo(rs, |rs|);
    MostUsedInTally(rs, e);
    var k :| 0 <= k < |m| && m[k] == e;
    TallyCountOf(rs, |rs|, e.key);
    GetAt(m, k);
  }

  /** A type that occurs but is not listed is no more frequent than any listed type. */
  lemma MostUsedTypesLeftOut(rs: seq<HistoryRecord>, i: nat, ty: string)
    requires i < |MostUsedTypes(rs)| && CountTypeUpTo(rs, |rs|, ty) > 0 && ty !in Keys(MostUsedTypes(rs))
    ensures CountTypeUpTo(rs, |rs|, ty) <= MostUsedTypes(rs)[i].value
  {
    var m := TallyUpTo(rs, |rs|);
    var top := MostUsedTypes(rs);
    var c := CountTypeUpTo(rs, |rs|, ty);
    TallyCountOf(rs, |rs|, ty);
    MostUsedTypesShape(rs);
    var sorted := SortDesc(m, Occurrences);
    assert top == sorted[..|top|];
    var k :| 0 <= k < |m| && Keys(m)[k] == ty;
    GetAt(m, k);
    assert m[k] == Entry(ty, c);
    SortMembers(m, Occurrences, m[k]);
    var j :| 0 <= j < |sorted| && sorted[j] == m[k];
    forall q | 0 <= q < |top|
      ensures sorted[q].key != ty
    {
      assert top[q] == sorted[q] && Keys(top)[q] == top[q].key;
    }
    assert i < |top| <= j;
    assert Occurrences(sorted[i]) >= Occurrences(sorted[j]);
    assert top[i] == sorted[i];
  }

  datatype Statistics = Statistics(
    total: nat,
    autoSaved: nat,
    manual: nat,
    today: nat,
    thisWeek: nat,
    thisMonth: nat,
    averageComplexity: int,
    totalCodeLines: nat,
    mostUsedTypes: seq<Entry<string, int>>,
    oldestRecord: Option<HistoryRecord>,
    newestRecord: Option<HistoryRecord>)

  /** `getStatistics()` at time `now`. */
  function GetStatistics(t: Table, now: int): (s: Statistics)
    ensures s.total == |t| && s.autoSaved + s.manual == s.total
    ensures s.today <= s.thisWeek <= s.thisMonth <= s.total
    ensures s.newestRecord == LatestRecord(t)
  {
    var rs := AllRecords(t);
    AutoSavedPlusManual(rs);
    CountRecentMonotone(rs, now, ONE_DAY, 7 * ONE_DAY);
    CountRecentMonotone(rs, now, 7 * ONE_DAY, 30 * ONE_DAY);
    Statistics(
      |rs|,
      CountAutoSaved(rs),
      CountManual(rs),
      CountRecent(rs, now, ONE_DAY),
      CountRecent(rs, now, 7 * ONE_DAY),
      CountRecent(rs, now, 30 * ONE_DAY),
      if |rs| > 0 then RoundedMean(SumComplexity(rs), |rs|) else 0,
      SumCodeLines(rs),
      MostUsedTypes(rs),
      if |rs| > 0 then Some(rs[|rs| - 1]) else None,
      if |rs| > 0 then Some(rs[0]) else None)
  }

  // ---------------------------------------------------------------------------
  // exportHistory / exportToCSV

  /** The exported object; `JSON.stringify` of it is not modelled. */
  datatype ExportData = ExportData(exportTime: int, version: string, total: nat, records: seq<RecordData>)

  datatype Exported = Json(data: ExportData) | Csv(text: string)

  const CsvHeaders: seq<string> := ["ID", "标题", "时间", "类型", "渲染模式", "代码行数", "是否自动保存"]

  /** One CSV row; `formatTime` is `getFormattedTime()`, a locale rendering of the timestamp. */
  function CsvRow(r: HistoryRecord, formatTime: int -> string): seq<string> {
    [r.id, r.title, formatTime(r.timestamp), r.diagramType, r.renderMode,
     NatToString(CodeLineCount(r.mermaidCode)), if r.autoSaved then "是" else "否"]
  }

  function Quote(field: string): string {
    "\"" + field + "\""
  }

  /** A row as one line: every field in double quotes, joined by commas. */
  function CsvLine(fields: seq<string>): string {
    Join(seq(|fields|, i requires 0 <= i < |fields| => Quote(fields[i])), ",")
  }

  /** The header line and one line per record. */
  function CsvLines(rs: seq<HistoryRecord>, formatTime: int -> string): (lines: seq<string>)
    ensures |lines| == |rs| + 1
  {
    [CsvLine(CsvHeaders)] + seq(|rs|, i requires 0 <= i < |rs| => CsvLine(CsvRow(rs[i], formatTime)))
  }

  /** `exportToCSV(records)`. */
  function ExportToCSV(rs: seq<HistoryRecord>, formatTime: int -> string): string {
    Join(CsvLines(rs, formatTime), "\n")
  }

  /** No field of the row holds a line break. */
  predicate SingleLineFields(r: HistoryRecord, formatTime: int -> string) {
    '\n' !in r.id && '\n' !in r.title && '\n' !in formatTime(r.timestamp)
    && '\n' !in r.diagramType && '\n' !in r.renderMode
  }

  lemma CsvLineSingle(fields: seq<string>)
    requires forall f :: f in fields ==> '\n' !in f
    ensures '\n' !in CsvLine(fields)
  {
    var quoted := seq(|fields|, i requires 0 <= i < |fields| => Quote(fields[i]));
    forall i | 0 <= i < |quoted|
      ensures '\n' !in quoted[i]
    {
      assert fields[i] in fields;
      assert quoted[i] == ['"'] + fields[i] + ['"'];
    }
    JoinLacks(quoted, ",", '\n');
  }

  lemma CsvHeaderSingle()
    ensures '\n' !in CsvLine(CsvHeaders)
  {
    CsvLineSingle(CsvHeaders);
  }

  lemma CsvRowSingle(r: HistoryRecord, formatTime: int -> string)
    requires SingleLineFields(r, formatTime)
    ensures '\n' !in CsvLine(CsvRow(r, formatTime))
  {
    var n := NatToString(CodeLineCount(r.mermaidCode));
    NatToStringSingleLine(CodeLineCount(r.mermaidCode));
    var flag := if r.autoSaved then "是" else "否";
    CsvLineOfSeven(r.id, r.title, formatTime(r.timestamp), r.diagramType, r.renderMode, n, flag);
  }

  lemma CsvLineOfSeven(a: string, b: string, c: string, d: string, e: string, f: string, g: string)
    requires '\n' !in a && '\n' !in b && '\n' !in c && '\n' !in d && '\n' !in e && '\n' !in f && '\n' !in g
    ensures '\n' !in CsvLine([a, b, c, d, e, f, g])
  {
    CsvLineSingle([a, b, c, d, e, f, g]);
  }

  /** When no field holds a line break, the CSV text has exactly one line per record after the header. */
  lemma CsvOneLinePerRecord(rs: seq<HistoryRecord>, formatTime: int -> string)
    requires forall r :: r in rs ==> SingleLineFields(r, formatTime)
    ensures Split(ExportToCSV(rs, formatTime), '\n') == CsvLines(rs, formatTime)
    ensures |Split(ExportToCSV(rs, formatTime), '\n')| == |rs| + 1
  {
    var lines := CsvLines(rs, formatTime);
    CsvHeaderSingle();
    forall i | 0 <= i < |lines|
      ensures '\n' !in lines[i]
    {
      if i > 0 {
        assert rs[i - 1] in rs;
        CsvRowSingle(rs[i - 1], formatTime);
      }
    }
    SplitJoin(lines, '\n');
  }

  /** `exportHistory(format)` at `exportTime`: fails for any format other than (any case of) `json` and `csv`. */
  function ExportHistory(t: Table, format: string, exportTime: int, formatTime: int -> string): (r: Result<Exported, string>)
    ensures r.Ok? <==> Lower(format) == "json" || Lower(format) == "csv"
    ensures r.Ok? && r.value.Json? ==> r.value.data.total == |r.value.data.records| == |t|
    ensures r.Ok? && r.value.Json? ==>
              r.value.data.records == seq(|AllRecords(t)|, i requires 0 <= i < |AllRecords(t)| => ToJSON(AllRecords(t)[i]))
  {
    var rs := AllRecords(t);
    var data := ExportData(exportTime, "1.0.0", |rs|, seq(|rs|, i requires 0 <= i < |rs| => ToJSON(rs[i])));
    var f := Lower(format);
    if f == "json" then Ok(Json(data))
    else if f == "csv" then Ok(Csv(ExportToCSV(rs, formatTime)))
    else Err("不支持的导出格式: " + format)
  }

  // ---------------------------------------------------------------------------
  // importHistory

  /** An element of the `records` array: `null`/`undefined` (on which `fromJSON` throws) or an object. */
  datatype RecordItem = NullItem | DataItem(data: RecordData)

  /** The `records` field of the payload: missing or falsy, a non-array, or an array. */
  datatype RecordsField = Missing | NotArray | Items(items: seq<RecordItem>)

  datatype ImportSummary = ImportSummary(imported: nat, skipped: nat, total: nat)

  datatype ImportState = ImportState(table: Table, imported: nat, skipped: nat)

  /** The record an item turns into, `null` giving none; `env` is what its constructor call sees. */
  function ItemRecord(item: RecordItem, env: Env): (r: Option<HistoryRecord>)
    ensures r.Some? <==> item.DataItem?
  {
    match item
    case NullItem => None
    case DataItem(d) => Some(NewRecord(d, env))
  }

  /** The id an item would be stored under; `env(i)` is what item `i`'s constructor call sees. */
  function ItemId(item: RecordItem, env: Env): (id: Option<string>)
    ensures item.DataItem? ==> id == Some(ItemRecord(item, env).value.id)
  {
    match item
    case NullItem => None
    case DataItem(d) => Some(NewRecord(d, env).id)
  }

  /** The records the items turn into, item `i` seeing `env(i)`. */
  function ItemRecords(items: seq<RecordItem>, env: nat -> Env): (rs: seq<Option<HistoryRecord>>)
    ensures |rs| == |items| && forall i :: 0 <= i < |items| ==> rs[i] == ItemRecord(items[i], env(i))
  {
    seq(|items|, i requires 0 <= i < |items| => ItemRecord(items[i], env(i)))
  }

  /**
   * The import loop after the first `i` items: a new id is appended, a known
   * id or a `null` item is skipped; known ids are never overwritten.
   */
  function ImportUpTo(t: Table, items: seq<RecordItem>, i: nat, env: nat -> Env): (s: ImportState)
    requires i <= |items|
    ensures s.imported + s.skipped == i
  {
    ImportFold(t, ItemRecords(items, env), i)
  }

  /** The import loop over the records the items turn into. */
  function ImportFold(t: Table, records: seq<Option<HistoryRecord>>, i: nat): (s: ImportState)
    requires i <= |records|
    ensures s.imported + s.skipped == i
    decreases i
  {
    if i == 0 then ImportState(t, 0, 0)
    else ImportStep(ImportFold(t, records, i - 1), records[i - 1])
  }

  /** One turn of the import loop, on the record the item turns into. */
  function ImportStep(s: ImportState, record: Option<HistoryRecord>): (next: ImportState)
    ensures next.imported + next.skipped == s.imported + s.skipped + 1
  {
    match record
    case None => s.(skipped := s.skipped + 1)
    case Some(r) =>
      if Has(s.table, r.id) then s.(skipped := s.skipped + 1)
      else ImportState(Set(s.table, r.id, r), s.imported + 1, s.skipped)
  }

  /** The loop of `importHistory(data)`: stores each non-null item's record unless its id is already stored. */
  method ImportLoop(start: Table, items: seq<RecordItem>, env: nat -> Env) returns (table: Table, imported: nat, skipped: nat)
    ensures ImportUpTo(start, items, |items|, env) == ImportState(table, imported, skipped)
  {
    table := start;
    imported := 0;
    skipped := 0;
    for i := 0 to |items|
      invariant ImportUpTo(start, items, i, env) == ImportState(table, imported, skipped)
    {
      match items[i]
      case NullItem => {
        skipped := skipped + 1;
      }
      case DataItem(d) => {
        var record := NewRecord(d, env(i));
        if !Has(table, record.id) {
          table := Set(table, record.id, record);
          imported := imported + 1;
        } else {
          skipped := skipped + 1;
        }
      }
    }
  }

  /** One turn of the import loop leaves a stored id's record as it was, and leaves the record's id stored. */
  lemma ImportStepKeeps(s: ImportState, record: Option<HistoryRecord>, k: string)
    ensures Has(s.table, k) ==> Get(ImportStep(s, record).table, k) == Get(s.table, k)
    ensures record.Some? ==> Has(ImportStep(s, record).table, record.value.id)
  {
    if record.Some? {
      SetGet(s.table, record.value.id, record.value, k);
      SetGet(s.table, record.value.id, record.value, record.value.id);
    }
  }

  /** Storing a record under its own, new id keeps the table well-formed and every other record in place. */
  lemma SetNewStored(t: Table, record: HistoryRecord)
    requires Stored(t) && !Has(t, record.id)
    ensures Stored(Set(t, record.id, record))
    ensures forall k :: Has(t, k) ==> Get(Set(t, record.id, record), k) == Get(t, k)
  {
    SetEntries(t, record.id, record);
    SetProperties(t, record.id, record);
  }

  /** Importing keeps the table well-formed and never overwrites a stored id. */
  lemma ImportUpToStored(t: Table, items: seq<RecordItem>, i: nat, env: nat -> Env)
    requires i <= |items| && Stored(t)
    ensures Stored(ImportUpTo(t, items, i, env).table)
    ensures forall k :: Has(t, k) ==> Get(ImportUpTo(t, items, i, env).table, k) == Get(t, k)
  {
    var rs := ItemRecords(items, env);
    ImportFoldStored(t, rs, i);
    forall k | Has(t, k)
      ensures Get(ImportFold(t, rs, i).table, k) == Get(t, k)
    {
      ImportFoldKeeps(t, rs, i, k, Get(t, k).value);
    }
  }

  lemma {:induction false} ImportFoldStored(t: Table, records: seq<Option<HistoryRecord>>, i: nat)
    requires i <= |records| && Stored(t)
    ensures Stored(ImportFold(t, records, i).table)
    decreases i
  {
    if i > 0 {
      ImportFoldStored(t, records, i - 1);
      var s := ImportFold(t, records, i - 1);
      if records[i - 1].Some? && !Has(s.table, records[i - 1].value.id) {
        SetNewStored(s.table, records[i - 1].value);
      }
    }
  }

  /** A stored id keeps its record through the import: the entry is never overwritten. */
  lemma {:induction false} ImportFoldKeeps(t: Table, records: seq<Option<HistoryRecord>>, i: nat, k: string, v: HistoryRecord)
    requires i <= |records| && Get(t, k) == Some(v)
    ensures Get(ImportFold(t, records, i).table, k) == Some(v)
    decreases i
  {
    if i > 0 {
      ImportFoldKeeps(t, records, i - 1, k, v);
      ImportStepKeeps(ImportFold(t, records, i - 1), records[i - 1], k);
    }
  }

  /** After the loop has handled record `k`, its id is stored. */
  lemma {:induction false} ImportFoldHas(t: Table, records: seq<Option<HistoryRecord>>, i: nat, k: nat)
    requires k < i <= |records| && records[k].Some?
    ensures Has(ImportFold(t, records, i).table, records[k].value.id)
    decreases i
  {
    if k < i - 1 {
      ImportFoldHas(t, records, i - 1, k);
    }
    ImportStepKeeps(ImportFold(t, records, i - 1), records[i - 1], records[k].value.id);
  }

  /** One turn of the import loop adds the record's id, if any, to the stored ids and nothing else. */
  lemma ImportStepHas(s: ImportState, record: Option<HistoryRecord>, k: string)
    ensures Has(ImportStep(s, record).table, k) <==> Has(s.table, k) || (record.Some? && record.value.id == k)
  {
    if record.Some? {
      SetGet(s.table, record.value.id, record.value, k);
    }
  }

  /** The ids stored after the loop are the ids stored before it and the ids of the records it handled. */
  lemma {:induction false} ImportFoldIds(t: Table, records: seq<Option<HistoryRecord>>, i: nat, k: string)
    requires i <= |records|
    ensures Has(ImportFold(t, records, i).table, k)
            <==> Has(t, k) || exists j :: 0 <= j < i && records[j].Some? && records[j].value.id == k
    decreases i
  {
    if i > 0 {
      ImportFoldIds(t, records, i - 1, k);
      ImportStepHas(ImportFold(t, records, i - 1), records[i - 1], k);
      if j :| 0 <= j < i && records[j].Some? && records[j].value.id == k {
        if j < i - 1 {
          assert exists j' :: 0 <= j' < i - 1 && records[j'].Some? && records[j'].value.id == k;
        }
      }
    }
  }

  /** Records whose ids are all stored already are all skipped. */
  lemma {:induction false} ImportFoldKnown(t: Table, records: seq<Option<HistoryRecord>>, i: nat)
    requires i <= |records|
    requires forall k :: 0 <= k < i ==> records[k].Some? && Has(t, records[k].value.id)
    ensures ImportFold(t, records, i) == ImportState(t, 0, i)
    decreases i
  {
    if i > 0 {
      ImportFoldKnown(t, records, i - 1);
    }
  }

  /** After importing, every id carried by an item is stored. */
  lemma ImportedIdsPresent(t: Table, items: seq<RecordItem>, i: nat, env: nat -> Env, k: nat)
    requires k < i <= |items| && items[k].DataItem?
    ensures Has(ImportUpTo(t, items, i, env).table, ItemId(items[k], env(k)).value)
  {
    ImportFoldHas(t, ItemRecords(items, env), i, k);
  }

  /** Items whose ids are all stored already import nothing and leave the table alone. */
  lemma ImportKnownIds(t: Table, items: seq<RecordItem>, i: nat, env: nat -> Env)
    requires i <= |items|
    requires forall k :: 0 <= k < i ==> items[k].DataItem? && Has(t, ItemId(items[k], env(k)).value)
    ensures ImportUpTo(t, items, i, env) == ImportState(t, 0, i)
  {
    var rs := ItemRecords(items, env);
    forall k | 0 <= k < i
      ensures rs[k].Some? && Has(t, rs[k].value.id)
    {
      assert ItemId(items[k], env(k)).value == rs[k].value.id;
    }
    ImportFoldKnown(t, rs, i);
  }

  /** Importing the same payload twice: the second time imports nothing. */
  lemma ImportTwice(t: Table, items: seq<RecordItem>, env: nat -> Env, env2: nat -> Env)
    requires Stored(t)
    requires forall k :: 0 <= k < |items| ==> items[k].DataItem? && items[k].data.id.Some? && items[k].data.id.value != ""
    ensures var first := ImportUpTo(t, items, |items|, env).table;
            ImportUpTo(first, items, |items|, env2) == ImportState(first, 0, |items|)
  {
    var first := ImportUpTo(t, items, |items|, env).table;
    forall k | 0 <= k < |items|
      ensures Has(first, ItemId(items[k], env2(k)).value)
    {
      ImportedIdsPresent(t, items, |items|, env, k);
    }
    ImportKnownIds(first, items, |items|, env2);
  }

  /** Importing the store's own export back imports nothing, when every stored id is non-empty. */
  lemma ReimportOwnExport(t: Table, exportTime: int, formatTime: int -> string, env: nat -> Env)
    requires Stored(t) && forall e :: e in t ==> e.key != ""
    ensures var data := ExportHistory(t, "json", exportTime, formatTime).value.data;
            var items := seq(|data.records|, i requires 0 <= i < |data.records| => DataItem(data.records[i]));
            ImportUpTo(t, items, |items|, env) == ImportState(t, 0, |t|)
  {
    assert Lower("json") == "json";
    var data := ExportHistory(t, "json", exportTime, formatTime).value.data;
    var rs := AllRecords(t);
    AllRecordsStored(t);
    var items := seq(|data.records|, i requires 0 <= i < |data.records| => DataItem(data.records[i]));
    forall k | 0 <= k < |items|
      ensures items[k].DataItem? && Has(t, ItemId(items[k], env(k)).value)
    {
      assert data.records[k] == ToJSON(rs[k]);
      assert rs[k] in rs;
      ExportedIdStored(t, rs[k], env(k));
    }
    ImportKnownIds(t, items, |items|, env);
  }

  /** A stored record, exported and read back, is stored under its own id when no stored id is empty. */
  lemma ExportedIdStored(t: Table, r: HistoryRecord, env: Env)
    requires Get(t, r.id) == Some(r) && forall e :: e in t ==> e.key != ""
    ensures Has(t, ItemId(DataItem(ToJSON(r)), env).value)
  {
    var j :| 0 <= j < |t| && t[j].key == r.id;
    assert t[j] in t;
    assert ItemId(DataItem(ToJSON(r)), env).value == r.id;
  }

  /** Importing the store's export into any table stores exactly the ids of both, when no id of the exporting store is empty. */
  lemma ImportExportInto(t: Table, t1: Table, exportTime: int, formatTime: int -> string, env: nat -> Env)
    requires Stored(t) && forall e :: e in t ==> e.key != ""
    ensures var data := ExportHistory(t, "json", exportTime, formatTime).value.data;
            var items := seq(|data.records|, i requires 0 <= i < |data.records| => DataItem(data.records[i]));
            forall k :: Has(ImportUpTo(t1, items, |items|, env).table, k) <==> Has(t, k) || Has(t1, k)
  {
    assert Lower("json") == "json";
    var data := ExportHistory(t, "json", exportTime, formatTime).value.data;
    var items := seq(|data.records|, i requires 0 <= i < |data.records| => DataItem(data.records[i]));
    var rs := ItemRecords(items, env);
    AllRecordsStored(t);
    forall k
      ensures Has(ImportFold(t1, rs, |rs|).table, k) <==> Has(t, k) || Has(t1, k)
    {
      ImportFoldIds(t1, rs, |rs|, k);
      ExportedIdsAre(t, rs, data.records, env, k);
    }
  }

  /**
   * The export round trip: records deleted after the export are stored again
   * by importing it, so the table ends with exactly the ids stored at export time.
   */
  lemma ImportExportAfterDeletes(t: Table, t1: Table, exportTime: int, formatTime: int -> string, env: nat -> Env)
    requires Stored(t) && forall e :: e in t ==> e.key != ""
    requires forall k :: Has(t1, k) ==> Has(t, k)
    ensures var data := ExportHistory(t, "json", exportTime, formatTime).value.data;
            var items := seq(|data.records|, i requires 0 <= i < |data.records| => DataItem(data.records[i]));
            forall k :: Has(ImportUpTo(t1, items, |items|, env).table, k) <==> Has(t, k)
  {
    ImportExportInto(t, t1, exportTime, formatTime, env);
  }

  /** The records read back from the store's export carry exactly the store's ids. */
  lemma ExportedIdsAre(t: Table, rs: seq<Option<HistoryRecord>>, records: seq<RecordData>, env: nat -> Env, k: string)
    requires Stored(t) && forall e :: e in t ==> e.key != ""
    requires records == seq(|AllRecords(t)|, i requires 0 <= i < |AllRecords(t)| => ToJSON(AllRecords(t)[i]))
    requires rs == ItemRecords(seq(|records|, i requires 0 <= i < |records| => DataItem(records[i])), env)
    ensures (exists j :: 0 <= j < |rs| && rs[j].Some? && rs[j].value.id == k) <==> Has(t, k)
  {
    if j :| 0 <= j < |rs| && rs[j].Some? && rs[j].value.id == k {
      ReadBackId(t, rs, records, env, j);
      AllRecordsStored(t);
      assert AllRecords(t)[j] in AllRecords(t);
    }
    if Has(t, k) {
      var j := ListedAt(t, k);
      ReadBackId(t, rs, records, env, j);
    }
  }

  /** Record `j` read back from the export keeps the id of the `j`-th listed record. */
  lemma ReadBackId(t: Table, rs: seq<Option<HistoryRecord>>, records: seq<RecordData>, env: nat -> Env, j: nat)
    requires Stored(t) && forall e :: e in t ==> e.key != ""
    requires records == seq(|AllRecords(t)|, i requires 0 <= i < |AllRecords(t)| => ToJSON(AllRecords(t)[i]))
    requires rs == ItemRecords(seq(|records|, i requires 0 <= i < |records| => DataItem(records[i])), env)
    requires j < |rs|
    ensures rs[j].Some? && rs[j].value.id == AllRecords(t)[j].id
  {
    var r := AllRecords(t)[j];
    AllRecordsStored(t);
    assert r in AllRecords(t);
    ExportedIdStored(t, r, env(j));
    assert ItemId(DataItem(ToJSON(r)), env(j)).value == r.id;
  }

  /** Every stored id is the id of some listed record. */
  lemma ListedAt(t: Table, k: string) returns (j: nat)
    requires Stored(t) && Has(t, k)
    ensures j < |AllRecords(t)| && AllRecords(t)[j].id == k
  {
    var i :| 0 <= i < |t| && t[i].key == k;
    assert t[i] in t;
    assert Values(t)[i] == t[i].value;
    assert t[i].value in multiset(AllRecords(t));
    j :| 0 <= j < |AllRecords(t)| && AllRecords(t)[j] == t[i].value;
  }

  // ---------------------------------------------------------------------------
  // cleanup

  /** The `options` object of `cleanup`; a `None` field takes its destructuring default. */
  datatype CleanupOptions = CleanupOptions(
    olderThan: Option<int>,
    keepAutoSaved: Option<bool>,
    keepManual: Option<bool>,
    maxRecords: Option<int>)

  datatype CleanupSettings = CleanupSettings(olderThan: int, keepAutoSaved: bool, keepManual: bool, maxRecords: int)

  const NoCleanupOptions: CleanupOptions := CleanupOptions(None, None, None, None)

  /** The defaults: 30 days, drop auto-saved records, keep manual ones, `maxRecords`. */
  function Settings(o: CleanupOptions): CleanupSettings {
    CleanupSettings(
      if o.olderThan.Some? then o.olderThan.value else 30 * ONE_DAY,
      if o.keepAutoSaved.Some? then o.keepAutoSaved.value else false,
      if o.keepManual.Some? then o.keepManual.value else true,
      if o.maxRecords.Some? then o.maxRecords.value else MAX_RECORDS)
  }

  /** The removal predicate: too old, over the running count, or excluded by kind. */
  predicate ShouldRemove(r: HistoryRecord, removed: nat, total: nat, s: CleanupSettings, now: int) {
    || now - r.timestamp > s.olderThan
    || total - removed > s.maxRecords
    || (!s.keepAutoSaved && r.autoSaved)
    || (!s.keepManual && !r.autoSaved)
  }

  datatype CleanupState = CleanupState(table: Table, removed: nat)

  /** The cleanup loop after the first `i` records of the newest-first list `rs`. */
  function CleanupUpTo(t: Table, rs: seq<HistoryRecord>, i: nat, s: CleanupSettings, now: int): (c: CleanupState)
    requires i <= |rs|
    ensures c.removed <= i
    decreases i
  {
    if i == 0 then CleanupState(t, 0)
    else CleanupVisit(CleanupUpTo(t, rs, i - 1, s, now), rs[i - 1], |rs|, s, now)
  }

  /** One turn of the cleanup loop: the visited record is deleted when it should go. */
  function CleanupVisit(c: CleanupState, r: HistoryRecord, total: nat, s: CleanupSettings, now: int): (next: CleanupState)
    ensures next.removed <= c.removed + 1
  {
    if ShouldRemove(r, c.removed, total, s, now)
    then CleanupState(Delete(c.table, r.id), c.removed + 1)
    else c
  }

  /** The loop of `cleanup()`: visits the newest-first list taken at the start, deleting each record that should go. */
  method CleanupLoop(start: Table, rs: seq<HistoryRecord>, s: CleanupSettings, now: int) returns (table: Table, removed: nat)
    ensures CleanupUpTo(start, rs, |rs|, s, now) == CleanupState(table, removed)
  {
    table := start;
    removed := 0;
    for i := 0 to |rs|
      invariant CleanupUpTo(start, rs, i, s, now) == CleanupState(table, removed)
    {
      var record := rs[i];
      var shouldRemove := now - record.timestamp > s.olderThan
                          || |rs| - removed > s.maxRecords
                          || (!s.keepAutoSaved && record.autoSaved)
                          || (!s.keepManual && !record.autoSaved);
      if shouldRemove {
        table := Delete(table, record.id);
        removed := removed + 1;
      }
    }
  }

  lemma DeleteHasOther(t: Table, k: string, x: string)
    requires UniqueKeys(t) && x != k
    ensures Has(Delete(t, k), x) <==> Has(t, x)
  {
    DeleteOther(t, k, x);
  }

  /** `rs` lists stored records under distinct ids. */
  ghost predicate Listing(t: Table, rs: seq<HistoryRecord>) {
    UniqueKeys(t) && DistinctBy(rs, Id) && forall j :: 0 <= j < |rs| ==> Has(t, rs[j].id)
  }

  lemma AllRecordsListing(t: Table)
    requires Stored(t)
    ensures Listing(t, AllRecords(t))
  {
    var rs := AllRecords(t);
    AllRecordsStored(t);
    forall j | 0 <= j < |rs|
      ensures Has(t, rs[j].id)
    {
      assert rs[j] in rs;
    }
  }

  /**
   * Cleanup over a listing of the store: every record not yet visited is
   * still stored, and the removed count plus the remaining size is the
   * original size.
   */
  lemma {:induction false} CleanupSize(t: Table, rs: seq<HistoryRecord>, i: nat, s: CleanupSettings, now: int)
    requires Listing(t, rs) && i <= |rs|
    ensures var c := CleanupUpTo(t, rs, i, s, now);
            && UniqueKeys(c.table)
            && |c.table| + c.removed == |t|
            && forall j :: i <= j < |rs| ==> Has(c.table, rs[j].id)
    decreases i
  {
    if i > 0 {
      CleanupSize(t, rs, i - 1, s, now);
      var c := CleanupUpTo(t, rs, i - 1, s, now);
      if ShouldRemove(rs[i - 1], c.removed, |rs|, s, now) {
        var id := rs[i - 1].id;
        DeleteProperties(c.table, id);
        forall j | i <= j < |rs|
          ensures Has(Delete(c.table, id), rs[j].id)
        {
          assert Id(rs[i - 1]) != Id(rs[j]);
          DeleteHasOther(c.table, id, rs[j].id);
        }
      }
    }
  }

  lemma {:induction false} CleanupUnique(t: Table, rs: seq<HistoryRecord>, i: nat, s: CleanupSettings, now: int)
    requires UniqueKeys(t) && i <= |rs|
    ensures UniqueKeys(CleanupUpTo(t, rs, i, s, now).table)
    decreases i
  {
    if i > 0 {
      CleanupUnique(t, rs, i - 1, s, now);
      DeleteProperties(CleanupUpTo(t, rs, i - 1, s, now).table, rs[i - 1].id);
    }
  }

  /** One turn of the loop only touches the id of the record visited, and keeps the table well-formed. */
  lemma CleanupVisitOther(c: CleanupState, r: HistoryRecord, total: nat, s: CleanupSettings, now: int, x: string)
    requires UniqueKeys(c.table)
    ensures UniqueKeys(CleanupVisit(c, r, total, s, now).table)
    ensures x != r.id ==> (Has(CleanupVisit(c, r, total, s, now).table, x) <==> Has(c.table, x))
  {
    if ShouldRemove(r, c.removed, total, s, now) {
      DeleteProperties(c.table, r.id);
      if x != r.id {
        DeleteHasOther(c.table, r.id, x);
      }
    }
  }

  /** An id that no record from position `m` on carries keeps the presence it had after `m` steps. */
  lemma CleanupSettled(t: Table, rs: seq<HistoryRecord>, m: nat, i: nat, s: CleanupSettings, now: int, x: string)
    requires UniqueKeys(t) && m <= i <= |rs|
    requires forall j :: m <= j < i ==> rs[j].id != x
    ensures Has(CleanupUpTo(t, rs, i, s, now).table, x) == Has(CleanupUpTo(t, rs, m, s, now).table, x)
  {
    var ts := CleanupTables(t, rs, s, now);
    forall j | m < j <= i
      ensures Has(ts[j], x) <==> Has(ts[j - 1], x)
    {
      CleanupStepOther(t, rs, j, s, now, x);
    }
    PresenceSteady(ts, m, i, x);
  }

  /** The table after each number of steps of the cleanup loop, from none to all. */
  ghost function CleanupTables(t: Table, rs: seq<HistoryRecord>, s: CleanupSettings, now: int): (ts: seq<Table>)
    ensures |ts| == |rs| + 1 && forall j :: 0 <= j <= |rs| ==> ts[j] == CleanupUpTo(t, rs, j, s, now).table
  {
    seq(|rs| + 1, j requires 0 <= j <= |rs| => CleanupUpTo(t, rs, j, s, now).table)
  }

  /** A key whose presence no step from `lo` to `hi` changes is present at `hi` exactly when it is at `lo`. */
  lemma {:induction false} PresenceSteady(ts: seq<Table>, lo: nat, hi: nat, x: string)
    requires lo <= hi < |ts| && forall j :: lo < j <= hi ==> (Has(ts[j], x) <==> Has(ts[j - 1], x))
    ensures Has(ts[hi], x) == Has(ts[lo], x)
    decreases hi - lo
  {
    if lo < hi {
      PresenceSteady(ts, lo, hi - 1, x);
    }
  }

  /** Step `i` of the loop leaves the presence of every other id as it was. */
  lemma CleanupStepOther(t: Table, rs: seq<HistoryRecord>, i: nat, s: CleanupSettings, now: int, x: string)
    requires UniqueKeys(t) && 0 < i <= |rs| && rs[i - 1].id != x
    ensures Has(CleanupUpTo(t, rs, i, s, now).table, x) == Has(CleanupUpTo(t, rs, i - 1, s, now).table, x)
  {
    CleanupUnique(t, rs, i - 1, s, now);
    var c := CleanupUpTo(t, rs, i - 1, s, now);
    assert UniqueKeys(c.table);
    CleanupVisitOther(c, rs[i - 1], |rs|, s, now, x);
  }

  /**
   * A record survives `cleanup` exactly when, at its turn in the
   * newest-first list, none of the four removal conditions held.
   */
  lemma CleanupKeeps(t: Table, k: nat, s: CleanupSettings, now: int)
    requires Stored(t) && k < |t|
    ensures var rs := AllRecords(t);
            Has(CleanupUpTo(t, rs, |rs|, s, now).table, rs[k].id)
            <==> !ShouldRemove(rs[k], CleanupUpTo(t, rs, k, s, now).removed, |rs|, s, now)
  {
    var rs := AllRecords(t);
    AllRecordsListing(t);
    ListedLaterIds(t, rs, k);
    CleanupSettled(t, rs, k + 1, |rs|, s, now, rs[k].id);
    CleanupVisited(t, rs, k, s, now);
  }

  /** In a listing, no record after position `k` carries the id of record `k`. */
  lemma ListedLaterIds(t: Table, rs: seq<HistoryRecord>, k: nat)
    requires Listing(t, rs) && k < |rs|
    ensures forall j :: k + 1 <= j < |rs| ==> rs[j].id != rs[k].id
  {
    forall j | k + 1 <= j < |rs|
      ensures rs[j].id != rs[k].id
    {
      assert Id(rs[k]) != Id(rs[j]);
    }
  }

  /** Right after its turn, a listed record is still stored exactly when it was not to be removed. */
  lemma CleanupVisited(t: Table, rs: seq<HistoryRecord>, k: nat, s: CleanupSettings, now: int)
    requires Listing(t, rs) && k < |rs|
    ensures Has(CleanupUpTo(t, rs, k + 1, s, now).table, rs[k].id)
            <==> !ShouldRemove(rs[k], CleanupUpTo(t, rs, k, s, now).removed, |rs|, s, now)
  {
    CleanupSize(t, rs, k, s, now);
    var c := CleanupUpTo(t, rs, k, s, now);
    assert CleanupUpTo(t, rs, k + 1, s, now) == CleanupVisit(c, rs[k], |rs|, s, now);
    if ShouldRemove(rs[k], c.removed, |rs|, s, now) {
      DeleteProperties(c.table, rs[k].id);
    }
  }

  /** With the default options, every auto-saved record is removed, whatever its age. */
  lemma CleanupDefaultsDropAutoSaved(t: Table, k: nat, now: int)
    requires Stored(t) && k < |t| && AllRecords(t)[k].autoSaved
    ensures !Has(CleanupUpTo(t, AllRecords(t), |t|, Settings(NoCleanupOptions), now).table, AllRecords(t)[k].id)
  {
    CleanupKeeps(t, k, Settings(NoCleanupOptions), now);
  }

  lemma {:induction false} CleanupStored(t: Table, rs: seq<HistoryRecord>, i: nat, s: CleanupSettings, now: int)
    requires Stored(t) && i <= |rs|
    ensures Stored(CleanupUpTo(t, rs, i, s, now).table)
    decreases i
  {
    if i > 0 {
      CleanupStored(t, rs, i - 1, s, now);
      var c := CleanupUpTo(t, rs, i - 1, s, now);
      DeleteProperties(c.table, rs[i - 1].id);
      DeleteEntries(c.table, rs[i - 1].id);
    }
  }

  // ---------------------------------------------------------------------------
  // The manager

  class HistoryManager {
    var records: seq<Entry<string, HistoryRecord>>

    ghost predicate Valid()
      reads this
    {
      Stored(records)
    }

    /** A manager with no records (restoring from storage is not modelled). */
    constructor ()
      ensures Valid() && records == []
    {
      records := [];
    }

    /** `getRecord(id)`. */
    function GetRecord(id: string): (r: Option<HistoryRecord>)
      reads this
      requires Valid()
      ensures r.Some? <==> Has(records, id)
      ensures r.Some? ==> r.value.id == id && Entry(id, r.value) in records
    {
      match IndexOf(records, id)
      case Some(i) =>
        assert records[i] in records;
        Some(records[i].value)
      case None => None
    }

    /** `removeOldestRecord()` at time `now`: the scan keeps the earliest strictly older record, the first on ties. */
    method RemoveOldestRecord(now: int)
      requires Valid()
      modifies this
      ensures Valid()
      ensures records == WithoutOldest(old(records), now)
    {
      var oldestId: Option<string> := None;
      var oldestTime := now;
      ghost var oldestIndex: Option<nat> := None;
      for i := 0 to |records|
        invariant OldestUpTo(records, i, now) == Candidate(oldestIndex, oldestTime)
        invariant oldestIndex.Some? ==> oldestIndex.value < |records| && oldestId == Some(records[oldestIndex.value].key)
        invariant oldestIndex.None? ==> oldestId.None?
      {
        var entry := records[i];
        if entry.value.timestamp < oldestTime {
          oldestTime := entry.value.timestamp;
          oldestId := Some(entry.key);
          oldestIndex := Some(i);
        }
      }
      WithoutOldestStored(records, now);
      if oldestId.Some? && oldestId.value != "" {
        records := Delete(records, oldestId.value);
      }
    }

    /** `addRecord(record)` at time `now`. */
    method AddRecord(record: HistoryRecord, now: int)
      requires Valid()
      modifies this
      ensures Valid()
      ensures records == Added(old(records), record, now)
    {
      AddedStored(records, record, now);
      SetProperties(records, record.id, record);
      SetEntries(records, record.id, record);
      records := Set(records, record.id, record);
      if |records| > MAX_RECORDS {
        RemoveOldestRecord(now);
      }
    }

    /** `deleteRecord(id)`: reports whether the id was stored. */
    method DeleteRecord(id: string) returns (deleted: bool)
      requires Valid()
      modifies this
      ensures Valid()
      ensures deleted <==> Has(old(records), id)
      ensures records == Delete(old(records), id) && !Has(records, id)
    {
      deleted := Has(records, id);
      DeleteProperties(records, id);
      DeleteEntries(records, id);
      records := Delete(records, id);
    }

    /**
     * `autoSave()` over the given editor state. The new record is stamped
     * with `env.now`; `evictNow` is the later clock reading of the eviction
     * that `addRecord` may start.
     */
    method AutoSave(editor: Store.Editor, ui: Store.Ui, env: Env, evictNow: int)
      requires Valid()
      modifies this
      ensures Valid()
      ensures records == if AutoSaveSkips(old(records), editor) then old(records)
                         else Added(old(records), AutoSaveRecord(editor, ui, env), evictNow)
    {
      if editor.mermaidCode == "" && editor.inputText == "" {
        return;
      }
      var lastRecord := LatestRecord(records);
      if lastRecord.Some? && lastRecord.value.mermaidCode == editor.mermaidCode
         && lastRecord.value.inputText == editor.inputText {
        return;
      }
      var record := AutoSaveRecord(editor, ui, env);
      AddRecord(record, evictNow);
    }

    /**
     * `manualSave(title, description, tags)` over the given editor state; as
     * in `AutoSave`, `evictNow` is the clock reading of the eviction.
     */
    method ManualSave(title: string, description: string, tags: seq<string>, editor: Store.Editor, ui: Store.Ui,
                      env: Env, evictNow: int) returns (record: HistoryRecord)
      requires Valid()
      modifies this
      ensures Valid()
      ensures record == ManualSaveRecord(title, description, tags, editor, ui, env)
      ensures records == Added(old(records), record, evictNow)
    {
      record := ManualSaveRecord(title, description, tags, editor, ui, env);
      AddRecord(record, evictNow);
    }

    /**
     * `restoreRecord(id)`: fails for an unknown id and changes nothing;
     * otherwise loads the record into the store and adds a restore record
     * pointing back at it. The clock is read three times: `editNow` when the
     * store takes the code, `env.now` when the restore record is made, and
     * `evictNow` in the eviction that `addRecord` may start.
     */
    method RestoreRecord(id: string, store: Store.AppStore, editNow: int, env: Env, evictNow: int, originalTime: string)
      returns (r: Result<HistoryRecord, string>)
      requires Valid() && store.Valid()
      modifies this, store
      ensures Valid() && store.Valid()
      ensures !Has(old(records), id) ==> r.Err? && records == old(records) && unchanged(store)
      ensures Has(old(records), id) ==>
        var original := Get(old(records), id).value;
        && r == Ok(RestoreRecordOf(original, env, originalTime))
        && records == Added(old(records), r.value, evictNow)
        && store.editor == old(store.editor).(mermaidCode := original.mermaidCode, inputText := original.inputText,
                                              diagramType := original.diagramType)
        && store.ui == old(store.ui).(renderMode := original.renderMode)
        && store.history == Store.Pushed(old(store.history), Store.Snapshot(original.mermaidCode, editNow))
        && store.config == old(store.config) && store.remainingUsage == old(store.remainingUsage)
    {
      var found := GetRecord(id);
      if found.None? {
        return Err("历史记录未找到: " + id);
      }
      var original := found.value;
      assert Get(records, id) == Some(original) by {
        var k :| 0 <= k < |records| && records[k] == Entry(id, original);
        GetAt(records, k);
      }
      store.SetMermaidCode(original.mermaidCode, editNow);
      store.SetInputText(original.inputText);
      store.SetDiagramType(original.diagramType);
      store.SetRenderMode(original.renderMode);
      var restored := RestoreRecordOf(original, env, originalTime);
      AddRecord(restored, evictNow);
      return Ok(restored);
    }

    /** `importHistory(data)` for an already parsed payload; `env(i)` is what item `i`'s constructor sees. */
    method ImportHistory(field: RecordsField, env: nat -> Env) returns (r: Result<ImportSummary, string>)
      requires Valid()
      modifies this
      ensures Valid()
      ensures !field.Items? ==> r.Err? && records == old(records)
      ensures field.Items? ==>
        var s := ImportUpTo(old(records), field.items, |field.items|, env);
        records == s.table && r == Ok(ImportSummary(s.imported, s.skipped, |field.items|))
    {
      if !field.Items? {
        return Err("无效的历史记录格式");
      }
      var items := field.items;
      ghost var start := records;
      var imported, skipped;
      records, imported, skipped := ImportLoop(records, items, env);
      ImportUpToStored(start, items, |items|, env);
      return Ok(ImportSummary(imported, skipped, |items|));
    }

    /** `cleanup(options)` at time `now`. */
    method Cleanup(options: CleanupOptions, now: int) returns (removed: nat, remaining: nat)
      requires Valid()
      modifies this
      ensures Valid()
      ensures var c := CleanupUpTo(old(records), AllRecords(old(records)), |old(records)|, Settings(options), now);
              records == c.table && removed == c.removed
      ensures remaining == |records| && removed + remaining == |old(records)|
    {
      var s := Settings(options);
      var rs := AllRecords(records);
      ghost var start := records;
      AllRecordsListing(start);
      records, removed := CleanupLoop(records, rs, s, now);
      CleanupSize(start, rs, |rs|, s, now);
      CleanupStored(start, rs, |rs|, s, now);
      remaining := |records|;
    }
  }
}
