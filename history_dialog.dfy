/**
 * components/history-dialog.jsx: the rule that picks the two versions to
 * compare, the parsing of the comma-separated tag field of the save form,
 * and the filter object the dialog hands to the version store's search.
 */
module HistoryDialog {
  import opened Wrappers
  import opened Text
  import opened InsertionMap
  import opened HistoryRecords
  import opened History

  /** `prev.filter(id => id !== recordId)`. */
  function Without(s: seq<string>, x: string): (r: seq<string>)
    ensures x !in r && |r| <= |s|
    ensures forall y :: y in r <==> y in s && y != x
    decreases |s|
  {
    if s == [] then []
    else (if s[0] == x then [] else [s[0]]) + Without(s[1..], x)
  }

  /** No id occurs twice. */
  predicate Distinct(s: seq<string>) {
    forall i, j :: 0 <= i < j < |s| ==> s[i] != s[j]
  }

  /**
   * The `toggleCompare(recordId)` updater: deselects a selected id; otherwise
   * appends it, replacing the first selection when two are already chosen.
   */
  function ToggleCompare(prev: seq<string>, recordId: string): (next: seq<string>)
    ensures recordId in next <==> recordId !in prev
    ensures recordId in prev ==> forall y :: y in next <==> y in prev && y != recordId
    ensures recordId !in prev && |prev| < 2 ==> next == prev + [recordId]
    ensures recordId !in prev && |prev| >= 2 ==> next == [prev[1], recordId]
  {
    if recordId in prev then Without(prev, recordId)
    else if |prev| < 2 then prev + [recordId]
    else [prev[1], recordId]
  }

  lemma {:induction false} WithoutDistinct(s: seq<string>, x: string)
    requires Distinct(s)
    ensures Distinct(Without(s, x))
    decreases |s|
  {
    if s != [] {
      assert Distinct(s[1..]) by {
        forall i, j | 0 <= i < j < |s[1..]|
          ensures s[1..][i] != s[1..][j]
        {
          assert s[1..][i] == s[i + 1] && s[1..][j] == s[j + 1];
        }
      }
      WithoutDistinct(s[1..], x);
      var rest := Without(s[1..], x);
      if s[0] != x {
        forall k | 0 <= k < |rest|
          ensures rest[k] != s[0]
        {
          assert rest[k] in rest;
          var m :| 0 <= m < |s[1..]| && s[1..][m] == rest[k];
          assert s[m + 1] == rest[k];
        }
        var r := [s[0]] + rest;
        forall i, j | 0 <= i < j < |r|
          ensures r[i] != r[j]
        {
          if i == 0 {
            assert r[j] == rest[j - 1];
          } else {
            assert r[i] == rest[i - 1] && r[j] == rest[j - 1];
          }
        }
      }
    }
  }

  /** Starting from no selection, the selection never holds more than two ids, and never one twice. */
  lemma ToggleCompareKeepsSelectionSmall(prev: seq<string>, recordId: string)
    requires |prev| <= 2 && Distinct(prev)
    ensures |ToggleCompare(prev, recordId)| <= 2 && Distinct(ToggleCompare(prev, recordId))
  {
    if recordId in prev {
      WithoutDistinct(prev, recordId);
    } else if |prev| >= 2 {
      assert prev[1] != recordId;
    }
  }

  /** Toggling an id that was not selected, on a selection with room, and toggling it again restores the selection. */
  lemma ToggleCompareTwice(prev: seq<string>, recordId: string)
    requires recordId !in prev && |prev| < 2
    ensures ToggleCompare(ToggleCompare(prev, recordId), recordId) == prev
  {
    var next := prev + [recordId];
    if prev == [] {
      assert next == [recordId];
      assert next[1..] == [];
    } else {
      assert next == [prev[0], recordId];
      assert next[1..] == [recordId] && next[1..][1..] == [];
      assert Without(next[1..], recordId) == [];
      assert Without(next, recordId) == [prev[0]] + Without(next[1..], recordId);
    }
  }

  /** `tags.split(',').map(tag => tag.trim()).filter(Boolean)` over the pieces. */
  function TrimNonEmpty(pieces: seq<string>): (tags: seq<string>)
    ensures forall i :: 0 <= i < |tags| ==> tags[i] != ""
    decreases |pieces|
  {
    if pieces == [] then []
    else (if Trim(pieces[0]) == "" then [] else [Trim(pieces[0])]) + TrimNonEmpty(pieces[1..])
  }

  /** The tags of the save form's comma-separated field. */
  function ParseTags(text: string): (tags: seq<string>)
    ensures forall i :: 0 <= i < |tags| ==> tags[i] != "" && ',' !in tags[i]
  {
    var pieces := Split(text, ',');
    SplitPiecesLackSeparator(text, ',');
    TrimNonEmptyLacks(pieces, ',');
    TrimNonEmpty(pieces)
  }

  lemma {:induction false} TrimNonEmptyLacks(pieces: seq<string>, c: char)
    requires forall i :: 0 <= i < |pieces| ==> c !in pieces[i]
    ensures forall i :: 0 <= i < |TrimNonEmpty(pieces)| ==> c !in TrimNonEmpty(pieces)[i]
    decreases |pieces|
  {
    if pieces != [] {
      TrimNonEmptyLacks(pieces[1..], c);
      TrimLacks(pieces[0], c);
    }
  }

  /** Trimming removes characters and adds none. */
  lemma TrimLacks(s: string, c: char)
    requires c !in s
    ensures c !in Trim(s)
  {
    TrimSubstring(s);
  }

  /** Every character of the trimmed text is a character of the text. */
  lemma TrimSubstring(s: string)
    ensures forall ch :: ch in Trim(s) ==> ch in s
  {
    var t := TrimStart(s);
    var k := |s| - |t|;
    var r := TrimEnd(t);
    assert Trim(s) == r;
    forall ch | ch in r
      ensures ch in s
    {
      var i :| 0 <= i < |r| && r[i] == ch;
      assert t[i] == ch;
      assert s[k + i] == ch;
    }
  }

  /** Well-formed tags (non-empty, already trimmed, without commas) survive being joined with commas and parsed. */
  lemma ParseJoinedTags(tags: seq<string>)
    requires |tags| >= 1
    requires forall i :: 0 <= i < |tags| ==> tags[i] != "" && Trim(tags[i]) == tags[i] && ',' !in tags[i]
    ensures ParseTags(Join(tags, ",")) == tags
  {
    SplitJoin(tags, ',');
    TrimNonEmptyOfClean(tags);
  }

  lemma {:induction false} TrimNonEmptyOfClean(tags: seq<string>)
    requires forall i :: 0 <= i < |tags| ==> tags[i] != "" && Trim(tags[i]) == tags[i]
    ensures TrimNonEmpty(tags) == tags
    decreases |tags|
  {
    if tags != [] {
      CleanTail(tags);
      TrimNonEmptyOfClean(tags[1..]);
      TrimNonEmptyKeeps(tags[0], tags[1..]);
      assert [tags[0]] + tags[1..] == tags;
    }
  }

  lemma CleanTail(tags: seq<string>)
    requires tags != []
    requires forall i :: 0 <= i < |tags| ==> tags[i] != "" && Trim(tags[i]) == tags[i]
    ensures forall i :: 0 <= i < |tags[1..]| ==> tags[1..][i] != "" && Trim(tags[1..][i]) == tags[1..][i]
  {
    forall i | 0 <= i < |tags[1..]|
      ensures tags[1..][i] != "" && Trim(tags[1..][i]) == tags[1..][i]
    {
      assert tags[1..][i] == tags[i + 1];
    }
  }

  /** A clean first piece is kept as it is. */
  lemma TrimNonEmptyKeeps(tag: string, rest: seq<string>)
    requires tag != "" && Trim(tag) == tag
    ensures TrimNonEmpty([tag] + rest) == [tag] + TrimNonEmpty(rest)
  {
    assert ([tag] + rest)[1..] == rest;
  }

  /** An empty field and a field of commas and blanks give no tags. */
  lemma BlankFieldNoTags()
    ensures ParseTags("") == []
    ensures ParseTags(" , ") == []
  {
    assert Split("", ',') == [""];
    assert Trim("") == "";
    SplitAtFirstSeparator(" ", " ", ',');
    assert " " + [','] + " " == " , ";
    SplitWithoutSeparator(" ", ',');
    assert Split(" , ", ',') == [" ", " "];
    assert Trim(" ") == "" by {
      assert IsWhitespace(' ');
      assert TrimStart(" ") == TrimStart("");
    }
    assert TrimNonEmpty([" ", " "]) == TrimNonEmpty([" "]) by {
      assert [" ", " "][1..] == [" "];
    }
  }

  /** What `handleManualSave` hands to `historyManager.save`: the untrimmed title, the description and the parsed tags. */
  datatype SaveRequest = SaveRequest(title: string, description: string, tags: seq<string>)

  /** `handleManualSave()`: refused when the title trims to nothing. */
  function ManualSaveRequest(title: string, description: string, tagsText: string): (r: Option<SaveRequest>)
    ensures r.None? <==> Trim(title) == ""
    ensures r.Some? ==> r.value.title == title && r.value.description == description && r.value.tags == ParseTags(tagsText)
  {
    if Trim(title) == "" then None else Some(SaveRequest(title, description, ParseTags(tagsText)))
  }

  /**
   * The `filterOptions` the dialog passes to `search`: the saved-kind choice
   * goes in as the string of the select item (`'all'`, `'true'` or
   * `'false'`), and the empty date strings give an unbounded range.
   */
  function DialogFilters(autoSaved: string, diagramType: string, renderMode: string): (f: Filters)
    ensures f.autoSaved == Some(JsString(autoSaved))
  {
    Filters(Some(JsString(autoSaved)), Some(diagramType), Some(renderMode), Some(DateRange(None, None)), None)
  }

  /** The state the dialog opens with, and the one its reset button restores. */
  const DefaultFilterOptions: Filters := DialogFilters("all", "", "")

  /**
   * As written, every choice of the saved-kind select reaches the strict
   * `record.autoSaved === value` test as a string, so the filtered list is
   * empty, the default state included.
   */
  lemma DialogFiltersHideEverything(t: Table, query: string, autoSaved: string, diagramType: string, renderMode: string)
    ensures Search(t, query, DialogFilters(autoSaved, diagramType, renderMode)) == []
    ensures Search(t, query, DefaultFilterOptions) == []
  {
    NonBooleanAutoSavedMatchesNothing(t, query, DialogFilters(autoSaved, diagramType, renderMode));
    NonBooleanAutoSavedMatchesNothing(t, query, DefaultFilterOptions);
  }

  /** The filters the select items evidently stand for: `'all'` is no filter, `'true'` and `'false'` are booleans. */
  function IntendedFilters(autoSaved: string, diagramType: string, renderMode: string): (f: Filters)
    ensures autoSaved == "true" ==> f.autoSaved == Some(JsBool(true))
    ensures autoSaved == "false" ==> f.autoSaved == Some(JsBool(false))
    ensures autoSaved != "true" && autoSaved != "false" ==> f.autoSaved.None?
  {
    var kind := if autoSaved == "true" then Some(JsBool(true))
                else if autoSaved == "false" then Some(JsBool(false))
                else None;
    Filters(kind, Some(diagramType), Some(renderMode), Some(DateRange(None, None)), None)
  }

  lemma {:induction false} SelectEverything(rs: seq<HistoryRecord>, f: Filters)
    requires forall r :: FiltersMatch(r, f)
    ensures Select(rs, "", f) == rs
    decreases |rs|
  {
    if rs != [] {
      SelectEverything(rs[1..], f);
      assert [rs[0]] + rs[1..] == rs;
    }
  }

  /** With the intended filters, the default state lists every record, newest first. */
  lemma IntendedDefaultShowsAll(t: Table)
    ensures Search(t, "", IntendedFilters("all", "", "")) == AllRecords(t)
  {
    SelectEverything(AllRecords(t), IntendedFilters("all", "", ""));
  }

  /** With the intended filters, choosing automatic (or manual) saves lists exactly those records that match the rest. */
  lemma IntendedKindSelects(t: Table, query: string, choice: string, diagramType: string, renderMode: string, r: HistoryRecord)
    requires choice == "true" || choice == "false"
    ensures r in Search(t, query, IntendedFilters(choice, diagramType, renderMode))
        <==> && r in Values(t) && QueryMatches(r, query) && r.autoSaved == (choice == "true")
             && (diagramType == "" || r.diagramType == diagramType) && (renderMode == "" || r.renderMode == renderMode)
  {
    SearchProperties(t, query, IntendedFilters(choice, diagramType, renderMode));
  }
}
