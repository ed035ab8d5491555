/**
 * `HistoryRecord` of lib/history-manager.js: one saved version of the editor.
 * The constructor fills every missing or falsy field with a default; the
 * generated id, the clock reading and the formatted clock text are passed in
 * as an `Env` value.
 */
module HistoryRecords {
  import opened Wrappers
  import opened Text

  datatype HistoryRecord = HistoryRecord(
    id: string,
    timestamp: int,
    title: string,
    description: string,
    mermaidCode: string,
    inputText: string,
    diagramType: string,
    renderMode: string,
    tags: seq<string>,
    version: string,
    parentId: Option<string>,
    autoSaved: bool)

  /** A constructor argument (or a parsed JSON object): every field may be absent. */
  datatype RecordData = RecordData(
    id: Option<string>,
    timestamp: Option<int>,
    title: Option<string>,
    description: Option<string>,
    mermaidCode: Option<string>,
    inputText: Option<string>,
    diagramType: Option<string>,
    renderMode: Option<string>,
    tags: Option<seq<string>>,
    version: Option<string>,
    parentId: Option<string>,
    autoSaved: Option<bool>)

  const NoData: RecordData := RecordData(None, None, None, None, None, None, None, None, None, None, None, None)

  /**
   * What the environment supplies to a constructor call: the generated id
   * (`history_<time>_<random>`), `Date.now()`, and the formatted current time
   * that default titles embed.
   */
  datatype Env = Env(id: string, now: int, clock: string)

  /** `value || fallback` for a string field: absent and `''` are falsy. */
  function OrString(value: Option<string>, fallback: string): (r: string)
    ensures value.Some? && value.value != "" ==> r == value.value
    ensures value.None? || value.value == "" ==> r == fallback
  {
    if value.Some? && value.value != "" then value.value else fallback
  }

  /** `value || fallback` for a number field: absent and `0` are falsy. */
  function OrNumber(value: Option<int>, fallback: int): (r: int)
    ensures value.Some? && value.value != 0 ==> r == value.value
    ensures value.None? || value.value == 0 ==> r == fallback
  {
    if value.Some? && value.value != 0 then value.value else fallback
  }

  const DefaultTitlePrefix: string := "版本 "

  /** `new HistoryRecord(data)`. */
  function NewRecord(data: RecordData, env: Env): (r: HistoryRecord)
    ensures r.autoSaved <==> data.autoSaved == Some(true)
    ensures r.parentId != Some("")
    ensures env.id != "" ==> r.id != ""
    ensures r.title != "" && r.diagramType != "" && r.renderMode != "" && r.version != ""
  {
    HistoryRecord(
      OrString(data.id, env.id),
      OrNumber(data.timestamp, env.now),
      OrString(data.title, DefaultTitlePrefix + env.clock),
      OrString(data.description, ""),
      OrString(data.mermaidCode, ""),
      OrString(data.inputText, ""),
      OrString(data.diagramType, "auto"),
      OrString(data.renderMode, "excalidraw"),
      if data.tags.Some? then data.tags.value else [],
      OrString(data.version, "1.0.0"),
      if data.parentId.Some? && data.parentId.value != "" then data.parentId else None,
      data.autoSaved == Some(true))
  }

  /** `toJSON()`: every field, present. */
  function ToJSON(r: HistoryRecord): RecordData {
    RecordData(Some(r.id), Some(r.timestamp), Some(r.title), Some(r.description), Some(r.mermaidCode),
      Some(r.inputText), Some(r.diagramType), Some(r.renderMode), Some(r.tags), Some(r.version),
      r.parentId, Some(r.autoSaved))
  }

  /** A record none of whose defaulted fields is falsy: the records the constructor can produce. */
  predicate Normal(r: HistoryRecord) {
    r.id != "" && r.timestamp != 0 && r.title != "" && r.diagramType != ""
    && r.renderMode != "" && r.version != "" && r.parentId != Some("")
  }

  /** With a truthy id and clock, the constructor only produces normal records. */
  lemma NewRecordNormal(data: RecordData, env: Env)
    requires env.id != "" && env.now != 0
    ensures Normal(NewRecord(data, env))
  {
  }

  /** `fromJSON(r.toJSON())` gives back a normal record, whatever the environment supplies. */
  lemma FromJSONToJSON(r: HistoryRecord, env: Env)
    requires Normal(r)
    ensures NewRecord(ToJSON(r), env) == r
  {
  }

  /** A record whose defaulted fields are falsy does not survive the round trip: its id is replaced. */
  lemma EmptyIdReplaced(r: HistoryRecord, env: Env)
    requires r.id == ""
    ensures NewRecord(ToJSON(r), env).id == env.id
  {
  }

  /** With no data at all, every field takes its default. */
  lemma DefaultsOfEmptyData(env: Env)
    ensures NewRecord(NoData, env)
         == HistoryRecord(env.id, env.now, DefaultTitlePrefix + env.clock, "", "", "", "auto", "excalidraw",
                          [], "1.0.0", None, false)
  {
  }

  /** `getShortTitle()`: titles over 30 characters are cut to 30 and get `...`. */
  function ShortTitle(title: string): (r: string)
    ensures |title| <= 30 ==> r == title
    ensures |title| > 30 ==> |r| == 33 && r[..30] == title[..30] && r[30..] == "..."
  {
    if |title| > 30 then title[..30] + "..." else title
  }

  /** The number of lines that `trim` does not empty. */
  function CountNonBlank(lines: seq<string>): (n: nat)
    ensures n <= |lines|
    decreases |lines|
  {
    if lines == [] then 0
    else (if Trim(lines[0]) != "" then 1 else 0) + CountNonBlank(lines[1..])
  }

  /** `getCodeLineCount()`: the lines of the code that are not blank. */
  function CodeLineCount(code: string): nat {
    CountNonBlank(Split(code, '\n'))
  }

  /** `getComplexity()`: non-blank lines, plus `-->` arrows, plus `[...]` node labels. */
  function Complexity(code: string): (n: nat)
    ensures n >= CodeLineCount(code)
  {
    CodeLineCount(code) + CountMatches(code, "-->") + CountBracketNodes(code)
  }

  lemma {:induction false} CountNonBlankAppend(a: seq<string>, b: seq<string>)
    ensures CountNonBlank(a + b) == CountNonBlank(a) + CountNonBlank(b)
    decreases |a|
  {
    if a != [] {
      assert (a + b)[0] == a[0];
      assert (a + b)[1..] == a[1..] + b;
      CountNonBlankAppend(a[1..], b);
    } else {
      assert a + b == b;
    }
  }

  /** The line count of two texts joined by a newline is the sum of their line counts. */
  lemma CodeLineCountJoin(a: string, b: string)
    ensures CodeLineCount(a + "\n" + b) == CodeLineCount(a) + CodeLineCount(b)
  {
    SplitConcat(a, b, '\n');
    CountNonBlankAppend(Split(a, '\n'), Split(b, '\n'));
  }

  /** The complexity of two texts joined by a newline is the sum of their complexities. */
  lemma ComplexityJoin(a: string, b: string)
    ensures Complexity(a + "\n" + b) == Complexity(a) + Complexity(b)
  {
    assert '\n' !in "-->";
    CountMatchesJoin(a, b, "-->");
    CodeLineCountJoin(a, b);
    CountBracketNodesJoin(a, b);
  }

  /** A single line counts once, unless it is blank. */
  lemma CodeLineCountOneLine(line: string)
    requires '\n' !in line
    ensures CodeLineCount(line) == if Trim(line) == "" then 0 else 1
  {
    SplitWithoutSeparator(line, '\n');
  }

  lemma ArrowsExample(code: string)
    requires code == "A[x]-->B[y]"
    ensures CountMatches(code, "-->") == 1
  {
    var p := "-->";
    forall i | 0 <= i < 9
      ensures code[i..][1..] == code[i + 1..]
    {
    }
    assert code[..3] != p by { assert code[0] != p[0]; }
    assert code[1..][..3] != p by { assert code[1] != p[0]; }
    assert code[2..][..3] != p by { assert code[2] != p[0]; }
    assert code[3..][..3] != p by { assert code[3] != p[0]; }
    assert code[4..][..3] == p;
    assert code[4..][3..] == code[7..];
    assert code[7..][..3] != p by { assert code[7] != p[0]; }
    assert code[8..][..3] != p by { assert code[8] != p[0]; }
    assert |code[9..]| < 3;
    assert CountMatches(code[9..], p) == 0;
    assert CountMatches(code[8..], p) == CountMatches(code[9..], p);
    assert CountMatches(code[7..], p) == CountMatches(code[8..], p);
    assert CountMatches(code[4..], p) == 1 + CountMatches(code[7..], p);
    assert CountMatches(code[3..], p) == CountMatches(code[4..], p);
    assert CountMatches(code[2..], p) == CountMatches(code[3..], p);
    assert CountMatches(code[1..], p) == CountMatches(code[2..], p);
    assert CountMatches(code, p) == CountMatches(code[1..], p);
  }

  lemma LinesExample(code: string)
    requires code == "A[x]-->B[y]"
    ensures CodeLineCount(code) == 1
  {
    assert forall i :: 0 <= i < |code| ==> code[i] != '\n';
    CodeLineCountOneLine(code);
    assert !IsWhitespace(code[0]);
    assert Trim(code) != "";
  }

  lemma NodesExample(code: string)
    requires code == "A[x]-->B[y]"
    ensures CountBracketNodes(code) == 2
  {
    forall i | 0 <= i < 4
      ensures code[i..][1..] == code[i + 1..]
    {
    }
    assert code[4..] == "-->B[y]";
    ArrowToNode(code[4..]);
    assert CloseBracket(code[3..]) == Some(0);
    assert CloseBracket(code[2..]) == Some(1);
    BracketNodeFound(code[1..], 1);
    assert code[1..][3..] == code[4..];
    BracketSkipped(code);
  }

  /** The tail of the sample, an arrow into one labelled node, holds one bracketed label. */
  lemma ArrowToNode(s: string)
    requires s == "-->B[y]"
    ensures CountBracketNodes(s) == 1
  {
    forall i | 0 <= i < 7
      ensures s[i..][1..] == s[i + 1..]
    {
    }
    assert CloseBracket(s[6..]) == Some(0);
    assert CloseBracket(s[5..]) == Some(1);
    BracketNodeFound(s[4..], 1);
    assert s[4..][3..] == s[7..];
    BracketSkipped(s[3..]);
    BracketSkipped(s[2..]);
    BracketSkipped(s[1..]);
    BracketSkipped(s);
  }

  lemma BracketSkipped(s: string)
    requires s != [] && s[0] != '['
    ensures CountBracketNodes(s) == CountBracketNodes(s[1..])
  {
  }

  lemma BracketNodeFound(s: string, j: nat)
    requires s != [] && s[0] == '[' && CloseBracket(s[1..]) == Some(j)
    ensures CountBracketNodes(s) == 1 + CountBracketNodes(s[j + 2..])
  {
  }

  /** One line holding one arrow between two labelled nodes has complexity 1 + 1 + 2. */
  lemma ComplexityExample(code: string)
    requires code == "A[x]-->B[y]"
    ensures Complexity(code) == 4
  {
    LinesExample(code);
    ArrowsExample(code);
    NodesExample(code);
  }
}
