/**
 * app/page.js: the daily usage counter kept in the `usageData` entry of
 * local storage (a dictionary from a `YYYY-MM-DD` day to the number of
 * generations that day), and the guards of the generate button. The day is
 * passed in; so are the outcome of the character-limit check, the
 * unlimited-access flag and the reply of the generation service, which live
 * in code this model does not include.
 */
module Page {
  import opened Text
  import opened Store

  /** `NEXT_PUBLIC_DAILY_USAGE_LIMIT` when unset. */
  const DefaultUsageLimit: int := 5

  /** `usageData[today] || 0`. */
  function UsageOf(data: map<string, int>, today: string): int {
    if today in data then data[today] else 0
  }

  /** `Math.max(0, usageLimit - todayUsage)`. */
  function Remaining(data: map<string, int>, today: string, limit: int): (n: int)
    ensures n >= 0
    ensures n > 0 ==> UsageOf(data, today) + n == limit
    ensures n == 0 ==> UsageOf(data, today) >= limit
  {
    if limit - UsageOf(data, today) > 0 then limit - UsageOf(data, today) else 0
  }

  /** The dictionary after `incrementUsage()` on `today`. */
  function Incremented(data: map<string, int>, today: string): (r: map<string, int>)
    ensures today in r && r.Keys == data.Keys + {today}
  {
    data[today := UsageOf(data, today) + 1]
  }

  /** Incrementing counts one more use today and leaves every other day as it was. */
  lemma IncrementedCounts(data: map<string, int>, today: string, day: string)
    ensures UsageOf(Incremented(data, today), today) == UsageOf(data, today) + 1
    ensures day != today ==> UsageOf(Incremented(data, today), day) == UsageOf(data, day)
  {
  }

  /** Each use takes one off what remains, down to zero. */
  lemma RemainingAfterIncrement(data: map<string, int>, today: string, limit: int)
    ensures Remaining(Incremented(data, today), today, limit)
         == if Remaining(data, today, limit) > 0 then Remaining(data, today, limit) - 1 else 0
  {
    IncrementedCounts(data, today, today);
  }

  /** On a fresh day, exactly `limit` uses are allowed. */
  lemma {:induction false} FreshDayAllowsLimit(data: map<string, int>, today: string, limit: int, uses: nat)
    requires today !in data && limit >= 0
    ensures Remaining(IncrementedTimes(data, today, uses), today, limit) == if uses < limit then limit - uses else 0
    decreases uses
  {
    if uses > 0 {
      FreshDayAllowsLimit(data, today, limit, uses - 1);
      RemainingAfterIncrement(IncrementedTimes(data, today, uses - 1), today, limit);
    }
  }

  /** The dictionary after `uses` increments on `today`. */
  function IncrementedTimes(data: map<string, int>, today: string, uses: nat): map<string, int>
    decreases uses
  {
    if uses == 0 then data else Incremented(IncrementedTimes(data, today, uses - 1), today)
  }

  /** The `usageData` entry of local storage, together with the configured daily limit. */
  class UsageStorage {
    var usageData: map<string, int>
    const usageLimit: int

    constructor (limit: int, data: map<string, int>)
      ensures usageData == data && usageLimit == limit
    {
      usageData := data;
      usageLimit := limit;
    }

    /** `getRemainingUsage()`. */
    function GetRemainingUsage(today: string): (n: int)
      reads this
      ensures n >= 0
      ensures n == Remaining(usageData, today, usageLimit)
    {
      Remaining(usageData, today, usageLimit)
    }

    /** `checkUsageLimit()`: whether today's count is still under the limit, i.e. whether a use remains. */
    function CheckUsageLimit(today: string): (ok: bool)
      reads this
      ensures ok <==> GetRemainingUsage(today) > 0
    {
      UsageOf(usageData, today) < usageLimit
    }

    /** `incrementUsage()`: today's count goes up by one; no other day changes. */
    method IncrementUsage(today: string)
      modifies this
      ensures usageData == Incremented(old(usageData), today)
    {
      var data := usageData;
      if !(today in data) || data[today] == 0 {
        data := data[today := 0];
      }
      data := data[today := data[today] + 1];
      usageData := data;
    }
  }

  /** What the generation service replies; `streamed` is the text its chunk callback left in the editor. */
  datatype Reply =
    | Reply(mermaidCode: string, error: string, streamed: string)
    | Threw(streamed: string)

  datatype Outcome = EmptyInput | TooLong | LimitReached | Failed(message: string) | Generated(code: string)

  /**
   * The outcome of a click: the input guards first, then the usage guard
   * (skipped with unlimited access), then the reply.
   */
  function ClickOutcome(inputText: string, withinCharLimit: bool, hasUnlimited: bool, underLimit: bool, reply: Reply): Outcome {
    if Trim(inputText) == "" then EmptyInput
    else if !withinCharLimit then TooLong
    else if !hasUnlimited && !underLimit then LimitReached
    else ReplyOutcome(reply)
  }

  /** The outcome of a call to the service: an error reply, an empty code and a thrown error all fail. */
  function ReplyOutcome(reply: Reply): (o: Outcome)
    ensures o.Failed? || o.Generated?
    ensures o.Generated? <==> reply.Reply? && reply.error == "" && reply.mermaidCode != ""
    ensures o.Generated? ==> o.code == reply.mermaidCode
  {
    match reply
    case Reply(code, error, _) =>
      if error != "" then Failed(error)
      else if code == "" then Failed("生成图表失败，请重试")
      else Generated(code)
    case Threw(_) => Failed("生成图表时发生错误")
  }

  /** Whether the click got as far as calling the generation service. */
  predicate Called(o: Outcome) {
    o.Failed? || o.Generated?
  }

  /** Blank or over-long text is turned away whatever the usage state and the access level. */
  lemma InputGuardsComeFirst(inputText: string, withinCharLimit: bool, hasUnlimited: bool, underLimit: bool, reply: Reply)
    requires Trim(inputText) == "" || !withinCharLimit
    ensures !Called(ClickOutcome(inputText, withinCharLimit, hasUnlimited, underLimit, reply))
    ensures ClickOutcome(inputText, withinCharLimit, hasUnlimited, underLimit, reply)
         == ClickOutcome(inputText, withinCharLimit, true, true, reply)
  {
  }

  /** With unlimited access the usage count never stops a click. */
  lemma UnlimitedIgnoresUsage(inputText: string, withinCharLimit: bool, underLimit: bool, reply: Reply)
    ensures ClickOutcome(inputText, withinCharLimit, true, underLimit, reply) != LimitReached
    ensures ClickOutcome(inputText, withinCharLimit, true, underLimit, reply)
         == ClickOutcome(inputText, withinCharLimit, true, true, reply)
  {
  }

  /** A click only generates with text present, within the limit, and a use remaining or unlimited access. */
  lemma GeneratedNeedsEveryGuard(inputText: string, withinCharLimit: bool, hasUnlimited: bool, underLimit: bool, reply: Reply)
    requires ClickOutcome(inputText, withinCharLimit, hasUnlimited, underLimit, reply).Generated?
    ensures Trim(inputText) != "" && withinCharLimit && (hasUnlimited || underLimit)
    ensures reply.Reply? && reply.error == "" && reply.mermaidCode != ""
    ensures ClickOutcome(inputText, withinCharLimit, hasUnlimited, underLimit, reply).code == reply.mermaidCode
  {
  }

  /**
   * The `try` block of `handleGenerateClick()` once the service has replied:
   * only a generated diagram updates the code and, without unlimited access,
   * counts a use; the flags are left to the caller.
   */
  method ApplyReply(store: AppStore, usage: UsageStorage, today: string, hasUnlimited: bool, reply: Reply, now: int)
    returns (outcome: Outcome)
    requires store.Valid()
    modifies store, usage
    ensures store.Valid()
    ensures outcome == ReplyOutcome(reply)
    ensures usage.usageData == if outcome.Generated? && !hasUnlimited then Incremented(old(usage.usageData), today)
                               else old(usage.usageData)
    ensures store.config == old(store.config) && store.ui == old(store.ui)
    ensures outcome.Failed? ==> store.history == old(store.history) && store.remainingUsage == old(store.remainingUsage)
                                && store.editor == old(store.editor)
    ensures outcome.Generated? ==>
              && store.history == Pushed(old(store.history), Snapshot(outcome.code, now))
              && store.editor == old(store.editor).(mermaidCode := outcome.code)
              && store.remainingUsage == if hasUnlimited then old(store.remainingUsage) else usage.GetRemainingUsage(today)
  {
    match reply {
      case Reply(code, error, _) =>
        if error != "" {
          outcome := Failed(error);
        } else if code == "" {
          outcome := Failed("生成图表失败，请重试");
        } else {
          if !hasUnlimited {
            usage.IncrementUsage(today);
            store.SetRemainingUsage(usage.GetRemainingUsage(today));
          }
          store.SetMermaidCode(code, now);
          outcome := Generated(code);
        }
      case Threw(_) =>
        outcome := Failed("生成图表时发生错误");
    }
  }

  /** The part of `handleGenerateClick()` after the guards: the call to the service and its `finally`. */
  method RunGeneration(store: AppStore, usage: UsageStorage, today: string, hasUnlimited: bool, reply: Reply, now: int)
    returns (outcome: Outcome)
    requires store.Valid()
    modifies store, usage
    ensures store.Valid()
    ensures outcome == ReplyOutcome(reply)
    ensures usage.usageData == if outcome.Generated? && !hasUnlimited then Incremented(old(usage.usageData), today)
                               else old(usage.usageData)
    ensures store.config == old(store.config)
    ensures store.ui == old(store.ui).(isGenerating := false)
    ensures outcome.Failed? ==> store.history == old(store.history) && store.remainingUsage == old(store.remainingUsage)
                                && store.editor == old(store.editor).(isStreaming := false, streamingContent := reply.streamed)
    ensures outcome.Generated? ==>
              && store.history == Pushed(old(store.history), Snapshot(outcome.code, now))
              && store.editor == old(store.editor).(isStreaming := false, streamingContent := reply.streamed,
                                                    mermaidCode := outcome.code)
              && store.remainingUsage == if hasUnlimited then old(store.remainingUsage) else usage.GetRemainingUsage(today)
  {
    store.SetIsGenerating(true);
    store.SetIsStreaming(true);
    store.SetStreamingContent("");
    store.SetStreamingContent(reply.streamed);
    outcome := ApplyReply(store, usage, today, hasUnlimited, reply, now);
    store.SetIsGenerating(false);
    store.SetIsStreaming(false);
  }

  /**
   * `handleGenerateClick()`. A rejected input changes nothing; the usage
   * guard only opens the limit dialog; a call to the service sets the
   * generating and streaming flags for its duration, and only a generated
   * diagram updates the code, and, without unlimited access, counts a use.
   * The day is read twice: `checkDay` when the usage limit is checked and
   * `today` once the service has replied, so the two can differ when the
   * call runs across midnight.
   */
  method HandleGenerateClick(store: AppStore, usage: UsageStorage, checkDay: string, withinCharLimit: bool,
                             hasUnlimited: bool, reply: Reply, today: string, now: int)
    returns (outcome: Outcome)
    requires store.Valid()
    modifies store, usage
    ensures store.Valid()
    ensures outcome == ClickOutcome(old(store.editor.inputText), withinCharLimit, hasUnlimited,
                                    old(usage.CheckUsageLimit(checkDay)), reply)
    ensures usage.usageData == if outcome.Generated? && !hasUnlimited then Incremented(old(usage.usageData), today)
                               else old(usage.usageData)
    ensures store.config == old(store.config)
    ensures !Called(outcome) ==> store.editor == old(store.editor) && store.history == old(store.history)
                                 && store.remainingUsage == old(store.remainingUsage)
    ensures outcome == EmptyInput || outcome == TooLong ==> store.ui == old(store.ui)
    ensures outcome == LimitReached ==> store.ui == old(store.ui).(showLimitDialog := true)
    ensures Called(outcome) ==> store.ui == old(store.ui).(isGenerating := false)
    ensures outcome.Failed? ==> store.history == old(store.history) && store.remainingUsage == old(store.remainingUsage)
                                && store.editor == old(store.editor).(isStreaming := false, streamingContent := reply.streamed)
    ensures outcome.Generated? ==>
              && store.history == Pushed(old(store.history), Snapshot(outcome.code, now))
              && store.editor == old(store.editor).(isStreaming := false, streamingContent := reply.streamed,
                                                    mermaidCode := outcome.code)
              && store.remainingUsage == if hasUnlimited then old(store.remainingUsage) else usage.GetRemainingUsage(today)
  {
    var inputText := store.editor.inputText;
    ghost var expected := ClickOutcome(inputText, withinCharLimit, hasUnlimited, usage.CheckUsageLimit(checkDay), reply);
    if Trim(inputText) == "" {
      outcome := EmptyInput;
    } else if !withinCharLimit {
      outcome := TooLong;
    } else if !hasUnlimited && !usage.CheckUsageLimit(checkDay) {
      store.SetShowLimitDialog(true);
      outcome := LimitReached;
    } else {
      assert expected == ReplyOutcome(reply);
      outcome := RunGeneration(store, usage, today, hasUnlimited, reply, now);
    }
  }
}
