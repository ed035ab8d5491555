/**
 * hooks/use-keyboard-shortcuts.js: a key event becomes a chord string
 * (modifiers in the fixed order ctrl, cmd, shift, alt, then the lowercased
 * key), the chord is looked up in the `SHORTCUTS` table, and a matching
 * action runs against the application store.
 */
module KeyboardShortcuts {
  import opened Wrappers
  import opened Text
  import opened InsertionMap
  import opened Store

  datatype Action = Undo | Redo | Save | Export | Generate | Fix | TogglePanel | ToggleRenderMode | ShowHelp

  datatype Shortcut = Shortcut(action: Action, description: string)

  /** `SHORTCUTS`, in the order of its keys. */
  const Shortcuts: seq<Entry<string, Shortcut>> := [
    Entry("ctrl+z", Shortcut(Undo, "撤销")),
    Entry("cmd+z", Shortcut(Undo, "撤销")),
    Entry("ctrl+y", Shortcut(Redo, "重做")),
    Entry("cmd+y", Shortcut(Redo, "重做")),
    Entry("ctrl+shift+z", Shortcut(Redo, "重做")),
    Entry("cmd+shift+z", Shortcut(Redo, "重做")),
    Entry("ctrl+s", Shortcut(Save, "保存")),
    Entry("cmd+s", Shortcut(Save, "保存")),
    Entry("ctrl+shift+s", Shortcut(Export, "导出")),
    Entry("cmd+shift+s", Shortcut(Export, "导出")),
    Entry("ctrl+enter", Shortcut(Generate, "生成图表")),
    Entry("cmd+enter", Shortcut(Generate, "生成图表")),
    Entry("ctrl+shift+enter", Shortcut(Fix, "AI修复")),
    Entry("cmd+shift+enter", Shortcut(Fix, "AI修复")),
    Entry("ctrl+1", Shortcut(TogglePanel, "切换面板")),
    Entry("cmd+1", Shortcut(TogglePanel, "切换面板")),
    Entry("ctrl+2", Shortcut(ToggleRenderMode, "切换渲染模式")),
    Entry("cmd+2", Shortcut(ToggleRenderMode, "切换渲染模式")),
    Entry("ctrl+/", Shortcut(ShowHelp, "显示快捷键帮助")),
    Entry("cmd+/", Shortcut(ShowHelp, "显示快捷键帮助"))
  ]

  /** The parts of a `keydown` event the handler reads; `targetTag` is `event.target.tagName`. */
  datatype KeyEvent = KeyEvent(ctrlKey: bool, metaKey: bool, shiftKey: bool, altKey: bool, key: string, targetTag: string)

  /** The modifier names, in the order the handler pushes them. */
  function Modifiers(ev: KeyEvent): (ms: seq<string>)
    ensures |ms| <= 4
  {
    (if ev.ctrlKey then ["ctrl"] else []) + (if ev.metaKey then ["cmd"] else [])
    + (if ev.shiftKey then ["shift"] else []) + (if ev.altKey then ["alt"] else [])
  }

  /** The key name after lowercasing: the space bar and the arrow keys are renamed. */
  function KeyName(key: string): (name: string)
    ensures name == key || key in [" ", "arrowup", "arrowdown", "arrowleft", "arrowright"]
  {
    if key == " " then "space"
    else if key == "arrowup" then "up"
    else if key == "arrowdown" then "down"
    else if key == "arrowleft" then "left"
    else if key == "arrowright" then "right"
    else key
  }

  /** The chord string `parts.join("+")`. */
  function Chord(ev: KeyEvent): string {
    Join(Modifiers(ev) + [KeyName(Lower(ev.key))], "+")
  }

  /** Whether the event comes from a text field and carries neither ctrl nor meta. */
  predicate IgnoredInInput(ev: KeyEvent) {
    (ev.targetTag == "INPUT" || ev.targetTag == "TEXTAREA") && !(ev.ctrlKey || ev.metaKey)
  }

  /** The action `handleKeyDown` runs for the event, if any (its `preventDefault` is called exactly then). */
  function Matched(enabled: bool, ev: KeyEvent): (r: Option<Action>)
    ensures r.Some? <==> enabled && !IgnoredInInput(ev) && Has(Shortcuts, Chord(ev))
    ensures r.Some? ==> r.value == Get(Shortcuts, Chord(ev)).value.action
  {
    if !enabled || IgnoredInInput(ev) then None
    else match Get(Shortcuts, Chord(ev))
      case Some(s) => Some(s.action)
      case None => None
  }

  /** A piece of a join is part of the join. */
  lemma {:induction false} JoinHas(xs: seq<string>, sep: string, i: nat, c: char)
    requires i < |xs| && c in xs[i]
    ensures c in Join(xs, sep)
    decreases |xs|
  {
    if |xs| > 1 && i > 0 {
      JoinHas(xs[1..], sep, i - 1, c);
    }
  }

  /** No key of the table contains the letter `a`. */
  lemma KeysLackA()
    ensures forall i :: 0 <= i < |Shortcuts| ==> 'a' !in Shortcuts[i].key
  {
  }

  /** Every key of the table starts with `ctrl+` or with `cmd+`. */
  lemma EveryKeyHasCtrlOrCmd()
    ensures forall i :: 0 <= i < |Shortcuts| ==>
              StartsWith(Shortcuts[i].key, "ctrl+") || StartsWith(Shortcuts[i].key, "cmd+")
  {
  }

  /** No key of the table starts with `ctrl+cmd+`. */
  lemma NoKeyHasCtrlAndCmd()
    ensures forall i :: 0 <= i < |Shortcuts| ==> !StartsWith(Shortcuts[i].key, "ctrl+cmd+")
  {
    assert forall i :: 0 <= i < |Shortcuts| ==> Shortcuts[i].key[1] == 'm' || Shortcuts[i].key[5] != 'c';
  }

  /** A chord built with alt held matches nothing. */
  lemma NoAltChordMatches(ev: KeyEvent)
    requires ev.altKey
    ensures !Has(Shortcuts, Chord(ev))
  {
    var parts := Modifiers(ev) + [KeyName(Lower(ev.key))];
    assert parts[|Modifiers(ev)| - 1] == "alt";
    JoinHas(parts, "+", |Modifiers(ev)| - 1, 'a');
    KeysLackA();
  }

  /** A chord built with ctrl and meta both held matches nothing. */
  lemma NoCtrlAndCmdChordMatches(ev: KeyEvent)
    requires ev.ctrlKey && ev.metaKey
    ensures !Has(Shortcuts, Chord(ev))
  {
    var rest := (if ev.shiftKey then ["shift"] else []) + (if ev.altKey then ["alt"] else []) + [KeyName(Lower(ev.key))];
    var parts := Modifiers(ev) + [KeyName(Lower(ev.key))];
    assert parts == ["ctrl", "cmd"] + rest;
    assert parts[1..] == ["cmd"] + rest && parts[1..][1..] == rest;
    var tail := Join(rest, "+");
    assert Join(parts[1..], "+") == "cmd" + "+" + tail;
    assert Chord(ev) == "ctrl" + "+" + ("cmd" + "+" + tail);
    assert StartsWith(Chord(ev), "ctrl+cmd+");
    NoKeyHasCtrlAndCmd();
  }

  /** A `ctrl+` chord and the `cmd+` chord with the same rest run the same action. */
  lemma TwinsShareAction(rest: string)
    ensures Get(Shortcuts, "ctrl+" + rest).Some? <==> Get(Shortcuts, "cmd+" + rest).Some?
    ensures Get(Shortcuts, "ctrl+" + rest).Some? ==>
              Get(Shortcuts, "ctrl+" + rest).value.action == Get(Shortcuts, "cmd+" + rest).value.action
  {
    TwinEntries();
    LookupTwins(Shortcuts, rest);
  }

  /** The table alternates a `ctrl+` key and its `cmd+` twin with the same shortcut. */
  lemma TwinEntries()
    ensures |Shortcuts| % 2 == 0
    ensures forall k :: 0 <= k < |Shortcuts| / 2 ==>
              StartsWith(Shortcuts[2 * k].key, "ctrl+") && Shortcuts[2 * k + 1].key == "cmd+" + Shortcuts[2 * k].key[5..]
              && Shortcuts[2 * k + 1].value == Shortcuts[2 * k].value
  {
    var rests := ["z", "y", "shift+z", "s", "shift+s", "enter", "shift+enter", "1", "2", "/"];
    forall k | 0 <= k < |Shortcuts| / 2
      ensures StartsWith(Shortcuts[2 * k].key, "ctrl+") && Shortcuts[2 * k + 1].key == "cmd+" + Shortcuts[2 * k].key[5..]
              && Shortcuts[2 * k + 1].value == Shortcuts[2 * k].value
    {
      assert Shortcuts[2 * k].key == "ctrl+" + rests[k] && Shortcuts[2 * k + 1].key == "cmd+" + rests[k];
      TwinPair(Shortcuts[2 * k], Shortcuts[2 * k + 1], rests[k]);
    }
  }

  lemma TwinPair(a: Entry<string, Shortcut>, b: Entry<string, Shortcut>, rest: string)
    requires a.key == "ctrl+" + rest && b.key == "cmd+" + rest && a.value == b.value
    ensures StartsWith(a.key, "ctrl+") && b.key == "cmd+" + a.key[5..] && b.value == a.value
  {
    assert a.key[..5] == "ctrl+" && a.key[5..] == rest;
  }

  /** In a table of twin pairs, looking up `ctrl+rest` and `cmd+rest` agree. */
  lemma {:induction false} LookupTwins(t: seq<Entry<string, Shortcut>>, rest: string)
    requires |t| % 2 == 0
    requires forall k :: 0 <= k < |t| / 2 ==>
               StartsWith(t[2 * k].key, "ctrl+") && t[2 * k + 1].key == "cmd+" + t[2 * k].key[5..]
               && t[2 * k + 1].value == t[2 * k].value
    ensures Get(t, "ctrl+" + rest).Some? <==> Get(t, "cmd+" + rest).Some?
    ensures Get(t, "ctrl+" + rest).Some? ==> Get(t, "ctrl+" + rest).value == Get(t, "cmd+" + rest).value
    decreases |t|
  {
    if t != [] {
      var a := t[0];
      var b := t[1];
      var ctrl := "ctrl+" + rest;
      var cmd := "cmd+" + rest;
      var k0 := 0;
      assert StartsWith(t[2 * k0].key, "ctrl+") && t[2 * k0 + 1].key == "cmd+" + t[2 * k0].key[5..]
             && t[2 * k0 + 1].value == t[2 * k0].value;
      var x := a.key[5..];
      assert a.key == "ctrl+" + x && b.key == "cmd+" + x;
      assert a.key != cmd by { assert a.key[1] == 't' && cmd[1] == 'm'; }
      assert b.key != ctrl by { assert b.key[1] == 'm' && ctrl[1] == 't'; }
      assert a.key == ctrl <==> b.key == cmd by {
        assert ctrl[5..] == rest && cmd[4..] == rest && a.key[5..] == x && b.key[4..] == x;
      }
      var u := t[2..];
      forall k | 0 <= k < |u| / 2
        ensures StartsWith(u[2 * k].key, "ctrl+") && u[2 * k + 1].key == "cmd+" + u[2 * k].key[5..]
                && u[2 * k + 1].value == u[2 * k].value
      {
        assert u[2 * k] == t[2 * (k + 1)] && u[2 * k + 1] == t[2 * (k + 1) + 1];
      }
      LookupTwins(u, rest);
      assert t == [a, b] + u;
      LookupPair(a, b, u, ctrl);
      LookupPair(a, b, u, cmd);
    }
  }

  /** Looking up a key in a table that starts with two entries. */
  lemma LookupPair(a: Entry<string, Shortcut>, b: Entry<string, Shortcut>, u: seq<Entry<string, Shortcut>>, k: string)
    ensures Get([a, b] + u, k) == if a.key == k then Some(a.value) else if b.key == k then Some(b.value) else Get(u, k)
  {
    assert [a, b] + u == [a] + ([b] + u);
    GetCons(a, [b] + u, k);
    GetCons(b, u, k);
  }

  /** With no `+` in the key name, the chord splits back into the modifiers and the key: it determines them. */
  lemma ChordSplits(ev: KeyEvent)
    requires '+' !in KeyName(Lower(ev.key))
    ensures Split(Chord(ev), '+') == Modifiers(ev) + [KeyName(Lower(ev.key))]
  {
    var parts := Modifiers(ev) + [KeyName(Lower(ev.key))];
    forall i | 0 <= i < |parts|
      ensures '+' !in parts[i]
    {
    }
    SplitJoin(parts, '+');
  }

  /** Each modifier flag shows in the chord's modifier list. */
  lemma ModifiersMembers(ev: KeyEvent)
    ensures "ctrl" in Modifiers(ev) <==> ev.ctrlKey
    ensures "cmd" in Modifiers(ev) <==> ev.metaKey
    ensures "shift" in Modifiers(ev) <==> ev.shiftKey
    ensures "alt" in Modifiers(ev) <==> ev.altKey
  {
    assert "ctrl" != "cmd" && "ctrl" != "shift" && "ctrl" != "alt";
    assert "cmd" != "shift" && "cmd" != "alt" && "shift" != "alt";
  }

  /** Two events without `+` in their key names give the same chord only when their modifiers and key names agree. */
  lemma ChordDeterminesEvent(e1: KeyEvent, e2: KeyEvent)
    requires '+' !in KeyName(Lower(e1.key)) && '+' !in KeyName(Lower(e2.key))
    requires Chord(e1) == Chord(e2)
    ensures e1.ctrlKey == e2.ctrlKey && e1.metaKey == e2.metaKey && e1.shiftKey == e2.shiftKey && e1.altKey == e2.altKey
    ensures KeyName(Lower(e1.key)) == KeyName(Lower(e2.key))
  {
    ChordSplits(e1);
    ChordSplits(e2);
    var p1 := Modifiers(e1) + [KeyName(Lower(e1.key))];
    var p2 := Modifiers(e2) + [KeyName(Lower(e2.key))];
    assert p1 == p2;
    assert Modifiers(e1) == p1[..|p1| - 1] && Modifiers(e2) == p2[..|p2| - 1];
    assert p1[|p1| - 1] == KeyName(Lower(e1.key)) && p2[|p2| - 1] == KeyName(Lower(e2.key));
    ModifiersMembers(e1);
    ModifiersMembers(e2);
  }

  /** Ctrl+Z undoes, outside a text field and inside one alike. */
  lemma CtrlZUndoes(tag: string)
    ensures Matched(true, KeyEvent(true, false, false, false, "Z", tag)) == Some(Undo)
  {
    var ev := KeyEvent(true, false, false, false, "Z", tag);
    assert Lower("Z") == "z";
    var parts := Modifiers(ev) + [KeyName("z")];
    assert parts == ["ctrl", "z"];
    assert Join(parts[1..], "+") == "z";
    assert Chord(ev) == "ctrl+z";
  }

  /** Cmd+Shift+Z redoes. */
  lemma CmdShiftZRedoes()
    ensures Matched(true, KeyEvent(false, true, true, false, "Z", "DIV")) == Some(Redo)
  {
    var ev := KeyEvent(false, true, true, false, "Z", "DIV");
    assert Lower("Z") == "z";
    var parts := Modifiers(ev) + [KeyName("z")];
    assert parts == ["cmd", "shift", "z"];
    assert parts[1..][1..] == ["z"];
    assert Join(parts[1..][1..], "+") == "z";
    assert Join(parts[1..], "+") == "shift+z";
    assert Chord(ev) == "cmd+shift+z";
    assert forall j :: 0 <= j < 5 ==> Shortcuts[j].key != "cmd+shift+z";
    GetFirst(Shortcuts, "cmd+shift+z", 5);
  }

  /** The first entry holding a key is what a lookup of that key returns. */
  lemma GetFirst(t: seq<Entry<string, Shortcut>>, k: string, i: nat)
    requires i < |t| && t[i].key == k && forall j :: 0 <= j < i ==> t[j].key != k
    ensures Get(t, k) == Some(t[i].value)
  {
    assert Keys(t)[i] == k;
  }

  /** Which of the optional callbacks the hook was given. */
  datatype Handlers = Handlers(onGenerate: bool, onFix: bool, onExport: bool, onSave: bool)

  datatype Callback = OnGenerate | OnFix | OnExport | OnSave

  /** What an action does besides changing the store. */
  datatype Effect =
    | NoEffect
    | Toast(message: string)
    | Call(callback: Callback)
    | Autosaved(code: string)
    | HelpShown

  /** `useAppStore.getState().ui.renderMode === "excalidraw" ? ... : ...`, read after the toggle. */
  function RenderModeToast(mode: string): string {
    if mode == "excalidraw" then "切换到Mermaid模式" else "切换到手绘模式"
  }

  /** The effect of an action that only calls its callback when the hook was given one. */
  function CallIf(present: bool, callback: Callback): Effect {
    if present then Call(callback) else NoEffect
  }

  /** What `executeAction(action)` does to the store and what else it causes. */
  twostate predicate Executed(store: AppStore, action: Action, handlers: Handlers, effect: Effect)
    reads store
  {
    && store.config == old(store.config) && store.remainingUsage == old(store.remainingUsage)
    && old(WellFormed(store.history)) && WellFormed(store.history)
    && match action
       case Undo =>
         && store.history == Undone(old(store.history)) && store.ui == old(store.ui)
         && store.editor == (if CanUndo(old(store.history)) then old(store.editor).(mermaidCode := CurrentCode(store.history))
                             else old(store.editor))
         && effect == (if CanUndo(old(store.history)) then Toast("已撤销") else NoEffect)
       case Redo =>
         && store.history == Redone(old(store.history)) && store.ui == old(store.ui)
         && store.editor == (if CanRedo(old(store.history)) then old(store.editor).(mermaidCode := CurrentCode(store.history))
                             else old(store.editor))
         && effect == (if CanRedo(old(store.history)) then Toast("已重做") else NoEffect)
       case Save =>
         && store.history == old(store.history) && store.ui == old(store.ui) && store.editor == old(store.editor)
         && effect == (if handlers.onSave then Call(OnSave)
                       else if store.editor.mermaidCode != "" then Autosaved(store.editor.mermaidCode)
                       else NoEffect)
       case Export =>
         store.history == old(store.history) && store.ui == old(store.ui) && store.editor == old(store.editor)
         && effect == CallIf(handlers.onExport, OnExport)
       case Generate =>
         store.history == old(store.history) && store.ui == old(store.ui) && store.editor == old(store.editor)
         && effect == CallIf(handlers.onGenerate, OnGenerate)
       case Fix =>
         store.history == old(store.history) && store.ui == old(store.ui) && store.editor == old(store.editor)
         && effect == CallIf(handlers.onFix, OnFix)
       case TogglePanel =>
         && store.history == old(store.history) && store.editor == old(store.editor)
         && store.ui == old(store.ui).(isLeftPanelCollapsed := !old(store.ui).isLeftPanelCollapsed)
         && effect == NoEffect
       case ToggleRenderMode =>
         && store.history == old(store.history) && store.editor == old(store.editor)
         && store.ui == old(store.ui).(renderMode := ToggledRenderMode(old(store.ui).renderMode))
         && effect == Toast(RenderModeToast(store.ui.renderMode))
       case ShowHelp =>
         store.history == old(store.history) && store.ui == old(store.ui) && store.editor == old(store.editor)
         && effect == HelpShown
  }

  /**
   * `executeAction(action)`: undo and redo touch the store only when
   * `canUndo()` / `canRedo()` holds; the file and generation actions call
   * the hook's callback when it has one.
   */
  method ExecuteAction(store: AppStore, action: Action, handlers: Handlers) returns (effect: Effect)
    requires store.Valid()
    modifies store
    ensures store.Valid()
    ensures Executed(store, action, handlers, effect)
  {
    match action {
      case Undo =>
        effect := NoEffect;
        if CanUndo(store.history) {
          store.Undo();
          effect := Toast("已撤销");
        }
      case Redo =>
        effect := NoEffect;
        if CanRedo(store.history) {
          store.Redo();
          effect := Toast("已重做");
        }
      case Save =>
        if handlers.onSave {
          effect := Call(OnSave);
        } else if store.editor.mermaidCode != "" {
          effect := Autosaved(store.editor.mermaidCode);
        } else {
          effect := NoEffect;
        }
      case Export =>
        effect := CallIf(handlers.onExport, OnExport);
      case Generate =>
        effect := CallIf(handlers.onGenerate, OnGenerate);
      case Fix =>
        effect := CallIf(handlers.onFix, OnFix);
      case TogglePanel =>
        store.ToggleLeftPanel();
        effect := NoEffect;
      case ToggleRenderMode =>
        store.ToggleRenderMode();
        effect := Toast(RenderModeToast(store.ui.renderMode));
      case ShowHelp =>
        effect := HelpShown;
    }
  }

  /** The chord construction of `handleKeyDown`: push the held modifiers, then the renamed key, and join. */
  method BuildChord(ev: KeyEvent) returns (shortcut: string)
    ensures shortcut == Chord(ev)
  {
    var parts: seq<string> := [];
    if ev.ctrlKey { parts := parts + ["ctrl"]; }
    if ev.metaKey { parts := parts + ["cmd"]; }
    if ev.shiftKey { parts := parts + ["shift"]; }
    if ev.altKey { parts := parts + ["alt"]; }
    assert parts == Modifiers(ev);
    var key := Lower(ev.key);
    if key == " " { key := "space"; }
    if key == "arrowup" { key := "up"; }
    if key == "arrowdown" { key := "down"; }
    if key == "arrowleft" { key := "left"; }
    if key == "arrowright" { key := "right"; }
    assert key == KeyName(Lower(ev.key));
    parts := parts + [key];
    shortcut := Join(parts, "+");
  }

  /**
   * `handleKeyDown(event)`: nothing when disabled or for an unmodified key in
   * a text field; otherwise the chord is built and, when the table has it,
   * its action runs. `action` is the action run, `None` when the event is left alone.
   */
  method HandleKeyDown(store: AppStore, enabled: bool, handlers: Handlers, ev: KeyEvent)
    returns (action: Option<Action>, effect: Effect)
    requires store.Valid()
    modifies store
    ensures store.Valid()
    ensures action == Matched(enabled, ev)
    ensures action.None? ==> effect == NoEffect && unchanged(store)
    ensures action.Some? ==> Executed(store, action.value, handlers, effect)
  {
    action := None;
    effect := NoEffect;
    if !enabled {
      return;
    }
    var isInInput := ev.targetTag == "INPUT" || ev.targetTag == "TEXTAREA";
    var isModified := ev.ctrlKey || ev.metaKey;
    if isInInput && !isModified {
      return;
    }
    var shortcut := BuildChord(ev);
    var config := Get(Shortcuts, shortcut);
    if config.Some? {
      action := Some(config.value.action);
      effect := ExecuteAction(store, config.value.action, handlers);
    }
  }
}
