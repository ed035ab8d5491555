/**
 * The application store of stores/app-store.js: editor, UI, configuration and
 * usage state, and the undo/redo command log. The log is a bounded list of
 * code snapshots with a cursor; writing a new code discards the snapshots
 * after the cursor, appends, and drops the front snapshot once when the list
 * grows past the cap.
 */
module Store {
  import opened Wrappers

  /** The cap on the command log (`MAX_HISTORY_SIZE`). */
  const MAX_HISTORY_SIZE: nat := 50

  /** One entry of the command log. */
  datatype Snapshot = Snapshot(code: string, timestamp: int)

  /** The `history` slice of the store: the snapshots and the cursor (`-1` when empty). */
  datatype Log = Log(records: seq<Snapshot>, currentIndex: int)

  datatype Editor = Editor(
    inputText: string,
    mermaidCode: string,
    diagramType: string,
    streamingContent: string,
    isStreaming: bool,
    errorMessage: Option<string>,
    hasError: bool)

  datatype Ui = Ui(
    isLeftPanelCollapsed: bool,
    renderMode: string,
    isGenerating: bool,
    isFixing: bool,
    showSettingsDialog: bool,
    showLimitDialog: bool)

  /** The AI endpoint settings; the store treats the object as opaque. */
  datatype AIConfig = AIConfig(settings: map<string, string>)

  datatype Config = Config(
    aiConfig: Option<AIConfig>,
    selectedModel: Option<string>,
    passwordVerified: bool,
    hasCustomConfig: bool)

  const InitialEditor: Editor := Editor("", "", "auto", "", false, None, false)
  const InitialUi: Ui := Ui(false, "excalidraw", false, false, false, false)
  const InitialConfig: Config := Config(None, None, false, false)
  const InitialRemainingUsage: int := 5
  const EmptyLog: Log := Log([], -1)

  /**
   * The log invariant: at most `MAX_HISTORY_SIZE` snapshots, and the cursor
   * is `-1` on an empty log and a valid index otherwise.
   */
  predicate WellFormed(log: Log) {
    && |log.records| <= MAX_HISTORY_SIZE
    && -1 <= log.currentIndex < |log.records|
    && (log.currentIndex == -1 <==> log.records == [])
  }

  /** `records.slice(0, end)`: a negative end counts from the back, and the end is clamped to the length. */
  function SliceTo<T>(s: seq<T>, end: int): (r: seq<T>)
    ensures |r| <= |s| && r == s[..|r|]
    ensures 0 <= end <= |s| ==> |r| == end
  {
    var e := if end < 0 then (if |s| + end < 0 then 0 else |s| + end)
             else if end > |s| then |s| else end;
    s[..e]
  }

  /** The log that `setMermaidCode` leaves: keep up to the cursor, append, drop the front once if over the cap. */
  function Pushed(log: Log, snap: Snapshot): (r: Log)
    ensures r.records != [] && r.records[|r.records| - 1] == snap
    ensures r.currentIndex == |r.records| - 1
  {
    var kept := SliceTo(log.records, log.currentIndex + 1) + [snap];
    var records := if |kept| > MAX_HISTORY_SIZE then kept[1..] else kept;
    Log(records, |records| - 1)
  }

  /** `canUndo()`. */
  predicate CanUndo(log: Log) {
    log.currentIndex > 0
  }

  /** `canRedo()`. */
  predicate CanRedo(log: Log) {
    log.currentIndex < |log.records| - 1
  }

  /** The log after `undo()`: the cursor steps back when it can; the snapshots are kept. */
  function Undone(log: Log): Log {
    if CanUndo(log) then log.(currentIndex := log.currentIndex - 1) else log
  }

  /** The log after `redo()`: the cursor steps forward when it can; the snapshots are kept. */
  function Redone(log: Log): Log {
    if CanRedo(log) then log.(currentIndex := log.currentIndex + 1) else log
  }

  /** The code of the snapshot under the cursor. */
  function CurrentCode(log: Log): string
    requires 0 <= log.currentIndex < |log.records|
  {
    log.records[log.currentIndex].code
  }

  /**
   * What `setMermaidCode` keeps of a well-formed log: exactly the snapshots
   * up to the cursor, then the new one, minus the front snapshot once the
   * list would exceed the cap.
   */
  lemma PushedRecords(log: Log, snap: Snapshot)
    requires WellFormed(log)
    ensures var kept := log.records[..log.currentIndex + 1] + [snap];
            Pushed(log, snap).records == if |kept| > MAX_HISTORY_SIZE then kept[1..] else kept
  {
  }

  /** Every operation of the log keeps the invariant. */
  lemma WellFormedPreserved(log: Log, snap: Snapshot)
    requires WellFormed(log)
    ensures WellFormed(Pushed(log, snap))
    ensures WellFormed(Undone(log)) && WellFormed(Redone(log)) && WellFormed(EmptyLog)
  {
  }

  /**
   * The cap relies on the prior state: only one front snapshot is dropped,
   * so a log that is already over the cap stays over it.
   */
  lemma OneShiftOnly(log: Log, snap: Snapshot)
    requires |log.records| == MAX_HISTORY_SIZE + 2 && log.currentIndex == |log.records| - 1
    ensures |Pushed(log, snap).records| == MAX_HISTORY_SIZE + 2
    ensures !WellFormed(Pushed(log, snap))
  {
  }

  /** Writing after an undo discards the future: `[A,B,C]`, undo, write `D` gives `[A,B,D]` with nothing to redo. */
  lemma WriteAfterUndoDiscardsFuture(a: Snapshot, b: Snapshot, c: Snapshot, d: Snapshot)
    ensures var after := Pushed(Undone(Log([a, b, c], 2)), d);
            after == Log([a, b, d], 2) && !CanRedo(after)
  {
    var undone := Undone(Log([a, b, c], 2));
    assert undone == Log([a, b, c], 1);
    assert SliceTo([a, b, c], 2) == [a, b];
  }

  /** `undo` immediately followed by `redo` restores the cursor, and so the current snapshot. */
  lemma UndoRedoRoundTrip(log: Log)
    requires WellFormed(log) && CanUndo(log)
    ensures Redone(Undone(log)) == log
    ensures CurrentCode(Redone(Undone(log))) == CurrentCode(log)
  {
  }

  /** `redo` immediately followed by `undo` restores the cursor as well, on a log that cannot be at index 0 after the redo. */
  lemma RedoUndoRoundTrip(log: Log)
    requires WellFormed(log) && CanRedo(log) && log.currentIndex >= 0
    ensures Undone(Redone(log)) == log
  {
  }

  /** Neither undo nor redo is possible on an empty or single-snapshot log. */
  lemma NothingToUndoOrRedoOnShortLog(log: Log)
    requires WellFormed(log) && |log.records| <= 1
    ensures !CanUndo(log) && !CanRedo(log)
  {
  }

  /** Right after a write, there is nothing to redo, and there is something to undo exactly when an older snapshot survives. */
  lemma PushedCursorAtEnd(log: Log, snap: Snapshot)
    requires WellFormed(log)
    ensures !CanRedo(Pushed(log, snap))
    ensures CanUndo(Pushed(log, snap)) <==> |Pushed(log, snap).records| >= 2
  {
  }

  /** `toggleRenderMode`: `'excalidraw'` becomes `'mermaid'`, anything else becomes `'excalidraw'`. */
  function ToggledRenderMode(mode: string): (r: string)
    ensures r == "mermaid" || r == "excalidraw"
    ensures r == "mermaid" <==> mode == "excalidraw"
  {
    if mode == "excalidraw" then "mermaid" else "excalidraw"
  }

  /** Toggling twice is the identity exactly on the two known render modes. */
  lemma ToggleTwice(mode: string)
    ensures ToggledRenderMode(ToggledRenderMode(mode)) == mode <==> mode == "excalidraw" || mode == "mermaid"
  {
  }

  /** `decrementUsage`: `Math.max(0, remaining - 1)`. */
  function DecrementedUsage(remaining: int): (r: int)
    ensures r >= 0
    ensures remaining >= 1 ==> r == remaining - 1
    ensures remaining <= 1 ==> r == 0
  {
    if remaining - 1 > 0 then remaining - 1 else 0
  }

  class AppStore {
    var editor: Editor
    var ui: Ui
    var config: Config
    var remainingUsage: int
    var history: Log

    ghost predicate Valid()
      reads this
    {
      WellFormed(history)
    }

    /** The initial state of the store. */
    constructor ()
      ensures Valid()
      ensures editor == InitialEditor && ui == InitialUi && config == InitialConfig
      ensures remainingUsage == InitialRemainingUsage && history == EmptyLog
    {
      editor := InitialEditor;
      ui := InitialUi;
      config := InitialConfig;
      remainingUsage := InitialRemainingUsage;
      history := EmptyLog;
    }

    method SetInputText(text: string)
      modifies this
      ensures editor == old(editor).(inputText := text)
      ensures ui == old(ui) && config == old(config) && remainingUsage == old(remainingUsage) && history == old(history)
    {
      editor := editor.(inputText := text);
    }

    /**
     * `setMermaidCode`: records a snapshot taken at `now` (the clock reading)
     * and shows the code in the editor.
     */
    method SetMermaidCode(code: string, now: int)
      requires Valid()
      modifies this
      ensures Valid()
      ensures history == Pushed(old(history), Snapshot(code, now))
      ensures editor == old(editor).(mermaidCode := code)
      ensures ui == old(ui) && config == old(config) && remainingUsage == old(remainingUsage)
    {
      WellFormedPreserved(history, Snapshot(code, now));
      var newRecords := SliceTo(history.records, history.currentIndex + 1) + [Snapshot(code, now)];
      if |newRecords| > MAX_HISTORY_SIZE {
        newRecords := newRecords[1..];
      }
      editor := editor.(mermaidCode := code);
      history := Log(newRecords, |newRecords| - 1);
    }

    method SetDiagramType(diagramType: string)
      modifies this
      ensures editor == old(editor).(diagramType := diagramType)
      ensures ui == old(ui) && config == old(config) && remainingUsage == old(remainingUsage) && history == old(history)
    {
      editor := editor.(diagramType := diagramType);
    }

    method SetStreamingContent(content: string)
      modifies this
      ensures editor == old(editor).(streamingContent := content)
      ensures ui == old(ui) && config == old(config) && remainingUsage == old(remainingUsage) && history == old(history)
    {
      editor := editor.(streamingContent := content);
    }

    method SetIsStreaming(isStreaming: bool)
      modifies this
      ensures editor == old(editor).(isStreaming := isStreaming)
      ensures ui == old(ui) && config == old(config) && remainingUsage == old(remainingUsage) && history == old(history)
    {
      editor := editor.(isStreaming := isStreaming);
    }

    method ToggleLeftPanel()
      modifies this
      ensures ui == old(ui).(isLeftPanelCollapsed := !old(ui).isLeftPanelCollapsed)
      ensures editor == old(editor) && config == old(config) && remainingUsage == old(remainingUsage) && history == old(history)
    {
      ui := ui.(isLeftPanelCollapsed := !ui.isLeftPanelCollapsed);
    }

    method SetRenderMode(mode: string)
      modifies this
      ensures ui == old(ui).(renderMode := mode)
      ensures editor == old(editor) && config == old(config) && remainingUsage == old(remainingUsage) && history == old(history)
    {
      ui := ui.(renderMode := mode);
    }

    method ToggleRenderMode()
      modifies this
      ensures ui == old(ui).(renderMode := ToggledRenderMode(old(ui).renderMode))
      ensures editor == old(editor) && config == old(config) && remainingUsage == old(remainingUsage) && history == old(history)
    {
      ui := ui.(renderMode := ToggledRenderMode(ui.renderMode));
    }

    method SetIsGenerating(isGenerating: bool)
      modifies this
      ensures ui == old(ui).(isGenerating := isGenerating)
      ensures editor == old(editor) && config == old(config) && remainingUsage == old(remainingUsage) && history == old(history)
    {
      ui := ui.(isGenerating := isGenerating);
    }

    method SetShowLimitDialog(show: bool)
      modifies this
      ensures ui == old(ui).(showLimitDialog := show)
      ensures editor == old(editor) && config == old(config) && remainingUsage == old(remainingUsage) && history == old(history)
    {
      ui := ui.(showLimitDialog := show);
    }

    /** `setAIConfig`: stores the configuration; `hasCustomConfig` is `!!config`. */
    method SetAIConfig(aiConfig: Option<AIConfig>)
      modifies this
      ensures config == old(config).(aiConfig := aiConfig, hasCustomConfig := aiConfig.Some?)
      ensures editor == old(editor) && ui == old(ui) && remainingUsage == old(remainingUsage) && history == old(history)
    {
      config := config.(aiConfig := aiConfig, hasCustomConfig := aiConfig.Some?);
    }

    method SetRemainingUsage(count: int)
      modifies this
      ensures remainingUsage == count
      ensures editor == old(editor) && ui == old(ui) && config == old(config) && history == old(history)
    {
      remainingUsage := count;
    }

    method DecrementUsage()
      modifies this
      ensures remainingUsage == DecrementedUsage(old(remainingUsage))
      ensures editor == old(editor) && ui == old(ui) && config == old(config) && history == old(history)
    {
      remainingUsage := DecrementedUsage(remainingUsage);
    }

    /**
     * `undo`: when the cursor is past the first snapshot, steps back and shows
     * that snapshot's code; otherwise nothing changes. The snapshots are never
     * changed.
     */
    method Undo()
      requires Valid()
      modifies this
      ensures Valid()
      ensures history == Undone(old(history)) && history.records == old(history).records
      ensures editor == if CanUndo(old(history)) then old(editor).(mermaidCode := CurrentCode(history)) else old(editor)
      ensures ui == old(ui) && config == old(config) && remainingUsage == old(remainingUsage)
    {
      if history.currentIndex > 0 {
        var newIndex := history.currentIndex - 1;
        var record := history.records[newIndex];
        editor := editor.(mermaidCode := record.code);
        history := history.(currentIndex := newIndex);
      }
    }

    /**
     * `redo`: when the cursor is before the last snapshot, steps forward and
     * shows that snapshot's code; otherwise nothing changes.
     */
    method Redo()
      requires Valid()
      modifies this
      ensures Valid()
      ensures history == Redone(old(history)) && history.records == old(history).records
      ensures editor == if CanRedo(old(history)) then old(editor).(mermaidCode := CurrentCode(history)) else old(editor)
      ensures ui == old(ui) && config == old(config) && remainingUsage == old(remainingUsage)
    {
      if history.currentIndex < |history.records| - 1 {
        var newIndex := history.currentIndex + 1;
        var record := history.records[newIndex];
        editor := editor.(mermaidCode := record.code);
        history := history.(currentIndex := newIndex);
      }
    }

    /** `clearHistory`: empties the log and leaves the editor (its code included) alone. */
    method ClearHistory()
      modifies this
      ensures Valid() && history == EmptyLog
      ensures editor == old(editor) && ui == old(ui) && config == old(config) && remainingUsage == old(remainingUsage)
    {
      history := EmptyLog;
    }

    /**
     * `resetAll`: the editor and the log return to their initial values; of
     * the UI only `isGenerating` and `isFixing` are reset; configuration and
     * usage are kept.
     */
    method ResetAll()
      modifies this
      ensures Valid()
      ensures editor == InitialEditor && history == EmptyLog
      ensures ui == old(ui).(isGenerating := false, isFixing := false)
      ensures config == old(config) && remainingUsage == old(remainingUsage)
    {
      editor := InitialEditor;
      ui := ui.(isGenerating := false, isFixing := false);
      history := EmptyLog;
    }
  }
}
