/** The bounded tool loop, against every behaviour of the model, the approver and the
    executor (src/cland/internal/agent/loop.go, registry.go).

    `log` records, in order, everything the loop does to the outside: model calls, approval
    prompts with their outcome, executions and emitted events. */
module AgentLoop {
  import opened Wrappers
  import Text

  const DEFAULT_MAX_ITERS: nat := 8
  const MAX_RESULT_CHARS: nat := 0x4000
  const TRUNCATED: string := "\n[...result truncated...]"

  datatype ToolCall = ToolCall(id: string, name: string, input: string)

  datatype ToolResult = ToolResult(toolUseId: string, content: string, isError: bool)

  datatype Turn = Prompt(prompt: string) | Assistant(text: string, calls: seq<ToolCall>) | Results(results: seq<ToolResult>)

  datatype Reply = Reply(text: string, calls: seq<ToolCall>)

  datatype Event =
    | TextEvent(text: string)
    | ToolCallEvent(callId: string, tool: string)
    | ApprovalRequired(callId: string, tool: string)
    | ToolRunning(callId: string, tool: string)
    | ToolResultEvent(callId: string, tool: string, isError: bool, result: string)
    | FinalEvent(text: string)
    | ErrorEvent(text: string)

  datatype Action =
    | AskModel(transcript: seq<Turn>)
    | AskApproval(callId: string, tool: string, input: string, granted: bool)
    | Execute(callId: string, tool: string, input: string)
    | Emit(event: Event)

  type Log = seq<Action>

  /** A block of a tool's output: plain text, or anything else as raw JSON. */
  datatype Content = TextBlock(text: string) | OtherBlock(json: string)

  datatype ExecResult = ExecResult(content: seq<Content>, isError: bool)

  /** Everything outside the loop, answering as it likes given all that happened so far.
      An approval that errs counts as not granted. */
  datatype World = World(model: Log -> Result<Reply, string>,
                         hasApprover: bool, approves: Log -> bool,
                         wireName: string -> Option<string>, readTools: set<string>,
                         parses: string -> bool, execute: Log -> Result<ExecResult, string>)

  /** Fail-closed: whatever is not a listed read tool changes the system. */
  predicate Changes(w: World, tool: string) { tool !in w.readTools }

  // ---------- what is promised of a log and a transcript ----------

  function ModelCalls(log: Log): nat {
    if log == [] then 0 else ModelCalls(log[..|log| - 1]) + if log[|log| - 1].AskModel? then 1 else 0
  }

  /** The call ids of the tool results emitted, in order. */
  function ResultIds(log: Log): seq<string> {
    if log == [] then []
    else
      var a := log[|log| - 1];
      ResultIds(log[..|log| - 1]) + if a.Emit? && a.event.ToolResultEvent? then [a.event.callId] else []
  }

  /** Every execution of a tool that changes the system comes right after the approval of
      that very call with that very input, with only the announcement in between. */
  ghost predicate Guarded(w: World, log: Log) {
    forall p {:trigger log[p].Execute?} :: 0 <= p < |log| && log[p].Execute? && log[p].tool !in w.readTools ==>
      && w.hasApprover && p >= 2
      && log[p - 2] == AskApproval(log[p].callId, log[p].tool, log[p].input, true)
      && log[p - 1] == Emit(ToolRunning(log[p].callId, log[p].tool))
  }

  /** Every recorded decision in `seg`, which follows `before`, is the approver's own. */
  ghost predicate Honest(w: World, before: Log, seg: Log) {
    forall p {:trigger seg[p].AskApproval?} :: 0 <= p < |seg| && seg[p].AskApproval? ==>
      w.hasApprover && seg[p].granted == w.approves(before + seg[..p])
  }

  /** Every model call sees the transcript as far as it went then: the prompt and all
      rounds so far. */
  ghost predicate Asks(log: Log, t: seq<Turn>) {
    forall p {:trigger log[p].AskModel?} :: 0 <= p < |log| && log[p].AskModel? ==>
      log[p].transcript <= t && |log[p].transcript| == 2 * ModelCalls(log[..p]) + 1
  }

  /** The call gets as far as the executor: the tool is known, it reads or the approver
      says yes when asked, and the input parses. */
  predicate Permitted(w: World, log: Log, tc: ToolCall) {
    && w.wireName(tc.name).Some?
    && var tool := w.wireName(tc.name).value;
    && (tool !in w.readTools ==>
          w.hasApprover && w.approves(log + [Emit(ToolCallEvent(tc.id, tool)), Emit(ApprovalRequired(tc.id, tool))]))
    && (tc.input == "" || w.parses(tc.input))
  }

  /** Somebody is asked for approval. */
  ghost predicate Prompts(log: Log) { exists p :: 0 <= p < |log| && log[p].AskApproval? }

  function CallIds(calls: seq<ToolCall>): seq<string> {
    if calls == [] then [] else CallIds(calls[..|calls| - 1]) + [calls[|calls| - 1].id]
  }

  function Answers(results: seq<ToolResult>): seq<string> {
    if results == [] then [] else Answers(results[..|results| - 1]) + [results[|results| - 1].toolUseId]
  }

  /** A prompt, then rounds of an assistant turn that asks for tools and a user turn with
      exactly one result per call, in order, under the same id. */
  ghost predicate Alternates(t: seq<Turn>) {
    && |t| % 2 == 1 && t[0].Prompt?
    && forall i :: 0 < i < |t| ==> InTurn(t, i)
  }

  predicate InTurn(t: seq<Turn>, i: nat)
    requires 0 < i < |t|
  {
    if i % 2 == 1 then t[i].Assistant? && t[i].calls != []
    else t[i].Results? && t[i - 1].Assistant? && Answers(t[i].results) == CallIds(t[i - 1].calls)
  }

  /** The ids of all calls of the transcript, in order. */
  function AskedIds(t: seq<Turn>): seq<string> {
    if t == [] then []
    else AskedIds(t[..|t| - 1]) + if t[|t| - 1].Assistant? then CallIds(t[|t| - 1].calls) else []
  }

  /** The executions of the log, each under its wire name. */
  function Executions(log: Log): seq<ToolCall> {
    if log == [] then []
    else
      var a := log[|log| - 1];
      Executions(log[..|log| - 1]) + if a.Execute? then [ToolCall(a.callId, a.tool, a.input)] else []
  }

  lemma LogSnoc(log: Log, a: Action)
    ensures ModelCalls(log + [a]) == ModelCalls(log) + if a.AskModel? then 1 else 0
    ensures ResultIds(log + [a]) == ResultIds(log) + if a.Emit? && a.event.ToolResultEvent? then [a.event.callId] else []
    ensures Executions(log + [a]) == Executions(log) + if a.Execute? then [ToolCall(a.callId, a.tool, a.input)] else []
  {
    assert (log + [a])[..|log|] == log;
  }

  lemma {:induction false} LogAppend(a: Log, b: Log)
    ensures ModelCalls(a + b) == ModelCalls(a) + ModelCalls(b)
    ensures ResultIds(a + b) == ResultIds(a) + ResultIds(b)
    ensures Executions(a + b) == Executions(a) + Executions(b)
  {
    if b == [] {
      assert a + b == a;
    } else {
      var c, x := b[..|b| - 1], b[|b| - 1];
      LogAppend(a, c);
      assert b == c + [x] && a + b == (a + c) + [x];
      LogSnoc(a + c, x);
      LogSnoc(c, x);
      Regroup(ResultIds(a), ResultIds(c), if x.Emit? && x.event.ToolResultEvent? then [x.event.callId] else []);
      Regroup(Executions(a), Executions(c), if x.Execute? then [ToolCall(x.callId, x.tool, x.input)] else []);
    }
  }

  lemma Regroup<T>(x: seq<T>, y: seq<T>, z: seq<T>)
    ensures (x + y) + z == x + (y + z)
  {
  }

  lemma GuardedAppend(w: World, a: Log, b: Log)
    requires Guarded(w, a) && Guarded(w, b)
    ensures Guarded(w, a + b)
  {
    var c := a + b;
    forall p | 0 <= p < |c| && c[p].Execute? && c[p].tool !in w.readTools
      ensures w.hasApprover && p >= 2
      ensures c[p - 2] == AskApproval(c[p].callId, c[p].tool, c[p].input, true)
      ensures c[p - 1] == Emit(ToolRunning(c[p].callId, c[p].tool))
    {
      if p >= |a| { assert b[p - |a|].Execute?; } else { assert a[p].Execute?; }
    }
  }

  lemma HonestAppend(w: World, before: Log, a: Log, b: Log)
    requires Honest(w, before, a) && Honest(w, before + a, b)
    ensures Honest(w, before, a + b)
  {
    var c := a + b;
    forall p | 0 <= p < |c| && c[p].AskApproval? ensures w.hasApprover && c[p].granted == w.approves(before + c[..p]) {
      if p < |a| {
        assert c[..p] == a[..p];
      } else {
        assert before + c[..p] == (before + a) + b[..p - |a|];
      }
    }
  }

  lemma AsksKept(log: Log, seg: Log, t: seq<Turn>, u: seq<Turn>)
    requires Asks(log, t) && t <= u && ModelCalls(seg) == 0
    ensures Asks(log + seg, u)
  {
    var c := log + seg;
    NoModelCall(seg);
    assert forall p :: |log| <= p < |c| ==> c[p] in seg;
    forall p | 0 <= p < |c| && c[p].AskModel?
      ensures c[p].transcript <= u && |c[p].transcript| == 2 * ModelCalls(c[..p]) + 1
    {
      assert c[..p] == log[..p];
    }
  }

  lemma {:induction false} NoModelCall(seg: Log)
    requires ModelCalls(seg) == 0
    ensures forall a :: a in seg ==> !a.AskModel?
  {
    if seg != [] {
      NoModelCall(seg[..|seg| - 1]);
      assert seg == seg[..|seg| - 1] + [seg[|seg| - 1]];
    }
  }

  /** What follows `before`: asks no model, with the given results and executions. */
  ghost predicate Segment(w: World, before: Log, seg: Log, results: seq<string>, execs: seq<ToolCall>) {
    Guarded(w, seg) && Honest(w, before, seg) && ModelCalls(seg) == 0 && ResultIds(seg) == results && Executions(seg) == execs
  }

  /** The action may come next. */
  ghost predicate Allowed(w: World, before: Log, seg: Log, a: Action) {
    match a
    case AskModel(_) => false
    case AskApproval(_, _, _, granted) => w.hasApprover && granted == w.approves(before + seg)
    case Execute(callId, tool, input) =>
      && seg != [] && seg[|seg| - 1] == Emit(ToolRunning(callId, tool))
      && (tool !in w.readTools ==> w.hasApprover && |seg| >= 2 && seg[|seg| - 2] == AskApproval(callId, tool, input, true))
    case Emit(_) => true
  }

  lemma Extend(w: World, before: Log, seg: Log, a: Action, execs: seq<ToolCall>)
    requires Segment(w, before, seg, [], execs) && Allowed(w, before, seg, a)
    ensures Segment(w, before, seg + [a], if a.Emit? && a.event.ToolResultEvent? then [a.event.callId] else [],
                    execs + if a.Execute? then [ToolCall(a.callId, a.tool, a.input)] else [])
  {
    var c := seg + [a];
    LogSnoc(seg, a);
    forall p | 0 <= p < |c| && c[p].Execute? && c[p].tool !in w.readTools
      ensures w.hasApprover && p >= 2
      ensures c[p - 2] == AskApproval(c[p].callId, c[p].tool, c[p].input, true)
      ensures c[p - 1] == Emit(ToolRunning(c[p].callId, c[p].tool))
    {
      if p < |seg| { assert seg[p].Execute?; }
    }
    HonestOne(w, before + seg, a);
    HonestAppend(w, before, seg, [a]);
  }

  lemma PromptsSnoc(seg: Log, a: Action)
    ensures Prompts(seg + [a]) <==> Prompts(seg) || a.AskApproval?
  {
    var c := seg + [a];
    if p :| 0 <= p < |seg| && seg[p].AskApproval? { assert c[p].AskApproval?; }
    if a.AskApproval? { assert c[|seg|].AskApproval?; }
  }

  lemma HonestOne(w: World, before: Log, a: Action)
    requires a.AskApproval? ==> w.hasApprover && a.granted == w.approves(before)
    ensures Honest(w, before, [a])
  {
    assert before + [a][..0] == before;
  }

  // ---------- the loop ----------

  function Written(c: Content): string { if c.TextBlock? then c.text else c.json }

  /** The blocks in order, each with a line break behind it. */
  function Lines(content: seq<Content>): string {
    if content == [] then ""
    else
      var c := content[|content| - 1];
      Lines(content[..|content| - 1]) + Written(c) + "\n"
  }

  /** `strings.TrimRight(s, "\n")`: all that goes is the line breaks at the end. */
  function TrimBreaks(s: string): (t: string)
    ensures t <= s && (t != "" ==> t[|t| - 1] != '\n') && forall i :: |t| <= i < |s| ==> s[i] == '\n'
  {
    if s != "" && s[|s| - 1] == '\n' then TrimBreaks(s[..|s| - 1]) else s
  }

  function Capped(s: string): string { if |s| > MAX_RESULT_CHARS then s[..MAX_RESULT_CHARS] else s }

  /** What is fed back to the model: the blocks line by line, without trailing line
      breaks, up to the cap. */
  method FlattenResult(content: seq<Content>) returns (s: string, truncated: bool)
    ensures var full := TrimBreaks(Lines(content));
            && s == Capped(full)
            && (truncated <==> |full| > MAX_RESULT_CHARS)
  {
    var b := "";
    for i := 0 to |content|
      invariant b == Lines(content[..i])
    {
      assert content[..i + 1][..i] == content[..i] && content[..i + 1][i] == content[i];
      assert Lines(content[..i + 1]) == b + Written(content[i]) + "\n";
      if content[i].TextBlock? {
        b := b + content[i].text;
      } else if |content[i].json| > 0 {
        b := b + content[i].json;
      }
      b := b + "\n";
    }
    assert content[..|content|] == content;
    s := TrimBreaks(b);
    if |s| > MAX_RESULT_CHARS { return s[..MAX_RESULT_CHARS], true; }
    truncated := false;
  }

  /** The blocks joined by line breaks, without the breaks at the end, up to 16384. */
  lemma FlattenedSpelled(content: seq<Content>)
    ensures var texts := seq(|content|, i requires 0 <= i < |content| =>
                               if content[i].TextBlock? then content[i].text else content[i].json);
            var full := TrimBreaks(Text.Join(texts, '\n'));
            Capped(TrimBreaks(Lines(content))) == if |full| > 16384 then full[..16384] else full
  {
    if content != [] {
      LinesJoined(content);
      var s := Text.Join(Texts(content), '\n');
      assert (s + "\n")[..|s|] == s;
    }
    assert Texts(content) == seq(|content|, i requires 0 <= i < |content| =>
                                   if content[i].TextBlock? then content[i].text else content[i].json);
  }

  function Texts(content: seq<Content>): seq<string> {
    seq(|content|, i requires 0 <= i < |content| => Written(content[i]))
  }

  lemma {:induction false} LinesJoined(content: seq<Content>)
    requires content != []
    ensures Lines(content) == Text.Join(Texts(content), '\n') + "\n"
  {
    var t, c := content[..|content| - 1], content[|content| - 1];
    assert Texts(content) == Texts(t) + [Written(c)];
    if t == [] {
      assert Lines(t) == "" && "" + Written(c) == Written(c);
      assert Texts(content) == [Written(c)];
    } else {
      LinesJoined(t);
      Text.JoinSnoc(Texts(t), Written(c), '\n');
    }
  }

  /** One call: it executes exactly when it is permitted, under its wire name and with the
      input it was approved for, and emits exactly one result. */
  method RunToolCall(w: World, log: Log, tc: ToolCall) returns (seg: Log, r: ToolResult)
    ensures Served(w, log, tc, seg, r)
    ensures Prompts(seg) <==> w.wireName(tc.name).Some? && w.wireName(tc.name).value !in w.readTools && w.hasApprover
    ensures w.wireName(tc.name).Some? && w.wireName(tc.name).value in w.readTools && (tc.input == "" || w.parses(tc.input))
            ==> Executions(seg) == [ToolCall(tc.id, w.wireName(tc.name).value, tc.input)] && !Prompts(seg)
  {
    var wire := w.wireName(tc.name);
    if wire.None? {
      seg, r := Fail(w, log, [], tc.id, tc.name, "ERROR: ", "unknown tool", []);
      return;
    }
    var tool := wire.value;
    var granted;
    seg, granted := Approve(w, log, tc, tool);
    if !granted {
      seg, r := Fail(w, log, seg, tc.id, tool, if w.hasApprover then "DENIED: " else "ERROR: ",
                     if w.hasApprover then "denied" else "tool requires approval", []);
      return;
    }
    seg, r := ExecuteCall(w, log, seg, tc, tool);
  }

  /** Announces the call and, if it changes the system, asks for approval; without an
      approver the answer is no. */
  method Approve(w: World, log: Log, tc: ToolCall, tool: string) returns (seg: Log, granted: bool)
    ensures Segment(w, log, seg, [], [])
    ensures granted <==> (tool !in w.readTools ==>
              w.hasApprover && w.approves(log + [Emit(ToolCallEvent(tc.id, tool)), Emit(ApprovalRequired(tc.id, tool))]))
    ensures granted && tool !in w.readTools ==>
              w.hasApprover && seg != [] && seg[|seg| - 1] == AskApproval(tc.id, tool, tc.input, true)
    ensures Prompts(seg) <==> tool !in w.readTools && w.hasApprover
  {
    seg := Act(w, log, [], Emit(ToolCallEvent(tc.id, tool)), []);
    if !Changes(w, tool) { return seg, true; }
    if !w.hasApprover { return seg, false; }
    seg := Act(w, log, seg, Emit(ApprovalRequired(tc.id, tool)), []);
    assert seg == [Emit(ToolCallEvent(tc.id, tool)), Emit(ApprovalRequired(tc.id, tool))];
    granted := w.approves(log + seg);
    seg := Act(w, log, seg, AskApproval(tc.id, tool, tc.input, granted), []);
  }

  method ExecuteCall(w: World, log: Log, start: Log, tc: ToolCall, tool: string) returns (seg: Log, r: ToolResult)
    requires Segment(w, log, start, [], [])
    requires tool !in w.readTools ==>
               w.hasApprover && start != [] && start[|start| - 1] == AskApproval(tc.id, tool, tc.input, true)
    ensures r.toolUseId == tc.id
    ensures Segment(w, log, seg, [tc.id], if tc.input == "" || w.parses(tc.input) then [ToolCall(tc.id, tool, tc.input)] else [])
    ensures !(tc.input == "" || w.parses(tc.input)) ==> r.isError
    ensures Prompts(seg) <==> Prompts(start)
    ensures tc.input == "" || w.parses(tc.input) ==> Relays(w, log, seg)
    ensures Reports(seg, r)
  {
    seg := Act(w, log, start, Emit(ToolRunning(tc.id, tool)), []);
    if tc.input != "" && !w.parses(tc.input) {
      seg, r := Fail(w, log, seg, tc.id, tool, "ERROR: ", "invalid tool arguments", []);
      return;
    }
    seg, r := CallExecutor(w, log, seg, tc, tool);
  }

  method CallExecutor(w: World, log: Log, start: Log, tc: ToolCall, tool: string) returns (seg: Log, r: ToolResult)
    requires Segment(w, log, start, [], []) && Allowed(w, log, start, Execute(tc.id, tool, tc.input))
    ensures r.toolUseId == tc.id && Reports(seg, r) && Relays(w, log, seg)
    ensures Segment(w, log, seg, [tc.id], [ToolCall(tc.id, tool, tc.input)])
    ensures Prompts(seg) <==> Prompts(start)
  {
    var res := w.execute(log + start);
    seg := Act(w, log, start, Execute(tc.id, tool, tc.input), []);
    ghost var at, run := seg, [ToolCall(tc.id, tool, tc.input)];
    if res.Err? {
      seg, r := Fail(w, log, seg, tc.id, tool, "ERROR: ", "tool execution failed", run);
    } else {
      var text, truncated := FlattenResult(res.value.content);
      seg := Finish(w, log, seg, ToolResultEvent(tc.id, tool, res.value.isError, text), run);
      r := ToolResult(tc.id, if truncated then text + TRUNCATED else text, res.value.isError);
    }
    assert seg[..|seg| - 2] == start && seg[|seg| - 2] == at[|start|];
  }

  /** The emitted result and the one fed back to the model carry the same verdict and, but
      for a heading or the truncation mark, the same text. */
  predicate Reports(seg: Log, r: ToolResult) {
    && seg != [] && seg[|seg| - 1].Emit? && seg[|seg| - 1].event.ToolResultEvent?
    && var e := seg[|seg| - 1].event;
    && e.isError == r.isError && e.callId == r.toolUseId
    && (r.content == e.result || r.content == e.result + "\n[...result truncated...]"
        || (r.isError && (r.content == "ERROR: " + e.result || r.content == "DENIED: " + e.result)))
  }

  /** The segment ends in an execution and its outcome: the executor's failure as an error,
      or its own verdict with its content as far as the cap. */
  ghost predicate Relays(w: World, before: Log, seg: Log) {
    && |seg| >= 2 && seg[|seg| - 2].Execute? && seg[|seg| - 1].Emit? && seg[|seg| - 1].event.ToolResultEvent?
    && var e := seg[|seg| - 1].event;
    match w.execute(before + seg[..|seg| - 2])
    case Err(_) => e.isError
    case Ok(res) => e.isError == res.isError && e.result == Capped(TrimBreaks(Lines(res.content)))
  }

  /** Records an action. */
  method Act(w: World, ghost before: Log, seg: Log, a: Action, ghost execs: seq<ToolCall>) returns (out: Log)
    requires Segment(w, before, seg, [], execs) && Allowed(w, before, seg, a) && !(a.Emit? && a.event.ToolResultEvent?)
    ensures out == seg + [a] && (Prompts(out) <==> Prompts(seg) || a.AskApproval?)
    ensures Segment(w, before, out, [], execs + if a.Execute? then [ToolCall(a.callId, a.tool, a.input)] else [])
  {
    Extend(w, before, seg, a, execs);
    PromptsSnoc(seg, a);
    out := seg + [a];
  }

  /** Records a failed call; the model is told with a heading in front. */
  method Fail(w: World, ghost before: Log, seg: Log, callId: string, tool: string, heading: string, text: string,
              ghost execs: seq<ToolCall>)
    returns (out: Log, r: ToolResult)
    requires Segment(w, before, seg, [], execs) && (heading == "ERROR: " || heading == "DENIED: ")
    ensures out == seg + [Emit(ToolResultEvent(callId, tool, true, text))]
    ensures r.toolUseId == callId && r.isError && Reports(out, r)
    ensures Segment(w, before, out, [callId], execs) && (Prompts(out) <==> Prompts(seg))
  {
    out := Finish(w, before, seg, ToolResultEvent(callId, tool, true, text), execs);
    r := ToolResult(callId, heading + text, true);
  }

  /** Records the one result of a call. */
  method Finish(w: World, ghost before: Log, seg: Log, e: Event, ghost execs: seq<ToolCall>) returns (out: Log)
    requires Segment(w, before, seg, [], execs) && e.ToolResultEvent?
    ensures out == seg + [Emit(e)] && Segment(w, before, out, [e.callId], execs)
    ensures Prompts(out) <==> Prompts(seg)
  {
    Extend(w, before, seg, Emit(e), execs);
    PromptsSnoc(seg, Emit(e));
    assert execs + [] == execs;
    out := seg + [Emit(e)];
  }

  /** What becomes of one call: it executes exactly when it is permitted, under its wire
      name and with its own input, and is answered with what the executor said; otherwise
      it is answered with an error. */
  ghost predicate Served(w: World, before: Log, call: ToolCall, part: Log, r: ToolResult) {
    && r.toolUseId == call.id && Reports(part, r)
    && Segment(w, before, part, [call.id],
               if Permitted(w, before, call) then [ToolCall(call.id, w.wireName(call.name).value, call.input)] else [])
    && (if Permitted(w, before, call) then Relays(w, before, part) else r.isError)
  }

  function Flat(parts: seq<Log>): Log {
    if parts == [] then [] else Flat(parts[..|parts| - 1]) + parts[|parts| - 1]
  }

  ghost predicate ServedAll(w: World, before: Log, calls: seq<ToolCall>, parts: seq<Log>, results: seq<ToolResult>) {
    |parts| == |results| == |calls| && forall k :: 0 <= k < |calls| ==> ServedKth(w, before, calls, parts, results, k)
  }

  ghost predicate ServedKth(w: World, before: Log, calls: seq<ToolCall>, parts: seq<Log>, results: seq<ToolResult>,
                            k: nat)
    requires |parts| == |results| == |calls| && k < |calls|
  {
    Served(w, before + Flat(parts[..k]), calls[k], parts[k], results[k])
  }

  /** All calls of one reply, in order, each on the log so far. */
  method RunToolCalls(w: World, log: Log, calls: seq<ToolCall>)
    returns (seg: Log, results: seq<ToolResult>, ghost parts: seq<Log>)
    ensures Guarded(w, seg) && Honest(w, log, seg) && ModelCalls(seg) == 0
    ensures ResultIds(seg) == CallIds(calls) && Answers(results) == CallIds(calls)
    ensures seg == Flat(parts) && ServedAll(w, log, calls, parts, results)
  {
    seg, results, parts := [], [], [];
    for i := 0 to |calls|
      invariant Guarded(w, seg) && Honest(w, log, seg) && ModelCalls(seg) == 0
      invariant ResultIds(seg) == CallIds(calls[..i]) && Answers(results) == CallIds(calls[..i])
      invariant seg == Flat(parts) && ServedAll(w, log, calls[..i], parts, results)
    {
      var more, r := RunToolCall(w, log + seg, calls[i]);
      SegmentAdded(w, log, seg, more, CallIds(calls[..i]), calls[i].id);
      AnswerAdded(calls, i, results, r);
      ServedSnoc(w, log, calls, i, parts, results, more, r);
      seg := seg + more;
      results := results + [r];
      parts := parts + [more];
    }
    assert calls[..|calls|] == calls;
  }

  lemma ServedSnoc(w: World, before: Log, calls: seq<ToolCall>, i: nat, parts: seq<Log>, results: seq<ToolResult>,
                   more: Log, r: ToolResult)
    requires i < |calls| && ServedAll(w, before, calls[..i], parts, results)
    requires Served(w, before + Flat(parts), calls[i], more, r)
    ensures Flat(parts + [more]) == Flat(parts) + more
    ensures ServedAll(w, before, calls[..i + 1], parts + [more], results + [r])
  {
    var all, rs, cs := parts + [more], results + [r], calls[..i + 1];
    assert all[..i] == parts;
    assert cs[..i] == calls[..i] && rs[..i] == results;
    forall k | 0 <= k < |cs| ensures ServedKth(w, before, cs, all, rs, k) {
      if k < i {
        ServedStays(w, before, cs, all, rs, i, k);
      }
    }
  }

  /** A call was served whatever follows it. */
  lemma ServedStays(w: World, before: Log, calls: seq<ToolCall>, parts: seq<Log>, results: seq<ToolResult>, i: nat, k: nat)
    requires |parts| == |results| == |calls| && k < i <= |calls|
    requires ServedKth(w, before, calls[..i], parts[..i], results[..i], k)
    ensures ServedKth(w, before, calls, parts, results, k)
  {
    assert parts[..i][..k] == parts[..k];
  }

  lemma AnswerAdded(calls: seq<ToolCall>, i: nat, results: seq<ToolResult>, r: ToolResult)
    requires i < |calls| && Answers(results) == CallIds(calls[..i]) && r.toolUseId == calls[i].id
    ensures CallIds(calls[..i + 1]) == CallIds(calls[..i]) + [calls[i].id]
    ensures Answers(results + [r]) == CallIds(calls[..i + 1])
  {
    assert calls[..i + 1][..i] == calls[..i] && (results + [r])[..|results|] == results;
  }

  lemma SegmentAdded(w: World, before: Log, seg: Log, more: Log, ids: seq<string>, id: string)
    requires Guarded(w, seg) && Honest(w, before, seg) && ModelCalls(seg) == 0 && ResultIds(seg) == ids
    requires Guarded(w, more) && Honest(w, before + seg, more) && ModelCalls(more) == 0 && ResultIds(more) == [id]
    ensures Guarded(w, seg + more) && Honest(w, before, seg + more)
    ensures ModelCalls(seg + more) == 0 && ResultIds(seg + more) == ids + [id]
  {
    LogAppend(seg, more);
    HonestAppend(w, before, seg, more);
    GuardedAppend(w, seg, more);
  }

  /** Turn `i` is what the model answered to the turns before it. */
  ghost predicate Replied(w: World, log: Log, t: seq<Turn>, i: nat)
    requires i < |t|
  {
    t[i].Assistant?
    && exists p :: 0 <= p < |log| && log[p] == AskModel(t[..i]) && w.model(log[..p]) == Ok(Reply(t[i].text, t[i].calls))
  }

  /** Turn `i` holds the outcomes of the calls of the turn before it, from one stretch of
      the log. */
  ghost predicate Answered(w: World, log: Log, t: seq<Turn>, i: nat)
    requires 0 < i < |t|
  {
    t[i].Results? && t[i - 1].Assistant? && ServedSomewhere(w, log, t[i - 1].calls, t[i].results)
  }

  ghost predicate ServedSomewhere(w: World, log: Log, calls: seq<ToolCall>, results: seq<ToolResult>) {
    exists p, parts :: ServedAt(w, log, p, calls, parts, results)
  }

  ghost predicate ServedAt(w: World, log: Log, p: nat, calls: seq<ToolCall>, parts: seq<Log>, results: seq<ToolResult>) {
    && p + |Flat(parts)| <= |log| && log[p..p + |Flat(parts)|] == Flat(parts)
    && ServedAll(w, log[..p], calls, parts, results)
  }

  /** Every turn after the prompt is the model's own reply or the outcome of its calls. */
  ghost predicate Genuine(w: World, log: Log, t: seq<Turn>) {
    forall i :: 0 < i < |t| ==> GenuineTurn(w, log, t, i)
  }

  ghost predicate GenuineTurn(w: World, log: Log, t: seq<Turn>, i: nat)
    requires 0 < i < |t|
  {
    if i % 2 == 1 then Replied(w, log, t, i) else Answered(w, log, t, i)
  }

  lemma GenuineGrows(w: World, log: Log, more: Log, t: seq<Turn>)
    requires Genuine(w, log, t)
    ensures Genuine(w, log + more, t)
  {
    forall i | 0 < i < |t| ensures GenuineTurn(w, log + more, t, i) {
      assert GenuineTurn(w, log, t, i);
      if i % 2 == 1 {
        var p :| 0 <= p < |log| && log[p] == AskModel(t[..i]) && w.model(log[..p]) == Ok(Reply(t[i].text, t[i].calls));
        assert (log + more)[..p] == log[..p] && (log + more)[p] == log[p];
      } else {
        var p, parts :| ServedAt(w, log, p, t[i - 1].calls, parts, t[i].results);
        ServedAtGrows(w, log, more, p, t[i - 1].calls, parts, t[i].results);
      }
    }
  }

  lemma ServedAtGrows(w: World, log: Log, more: Log, p: nat, calls: seq<ToolCall>, parts: seq<Log>,
                      results: seq<ToolResult>)
    requires ServedAt(w, log, p, calls, parts, results)
    ensures ServedAt(w, log + more, p, calls, parts, results)
  {
    assert (log + more)[..p] == log[..p];
    assert (log + more)[p..p + |Flat(parts)|] == log[p..p + |Flat(parts)|];
  }

  /** A round: the model's reply to `t`, then the outcomes of its calls. */
  lemma GenuineRound(w: World, log: Log, t: seq<Turn>, reply: Reply, parts: seq<Log>, results: seq<ToolResult>)
    requires Genuine(w, log, t) && |t| % 2 == 1 && LastAnswer(w, log, t, Ok(reply))
    requires ServedAll(w, log, reply.calls, parts, results)
    ensures Genuine(w, log + Flat(parts), t + [Assistant(reply.text, reply.calls)] + [Results(results)])
  {
    var c := log + Flat(parts);
    var u := t + [Assistant(reply.text, reply.calls)] + [Results(results)];
    GenuineGrows(w, log, Flat(parts), t);
    LastAnswerGrows(w, log, Flat(parts), t, Ok(reply));
    ServedHere(w, log, reply.calls, parts, results);
    NewTurns(w, c, t, reply, results);
    SameTurns(w, c, t, u);
  }

  /** Whether a turn is genuine depends on no later one. */
  lemma SameTurns(w: World, log: Log, t: seq<Turn>, u: seq<Turn>)
    requires Genuine(w, log, t) && t <= u
    ensures forall i :: 0 < i < |t| ==> GenuineTurn(w, log, u, i)
  {
    forall i | 0 < i < |t| ensures GenuineTurn(w, log, u, i) {
      assert GenuineTurn(w, log, t, i);
      assert u[..i] == t[..i] && u[i] == t[i] && u[i - 1] == t[i - 1];
    }
  }

  lemma ServedHere(w: World, log: Log, calls: seq<ToolCall>, parts: seq<Log>, results: seq<ToolResult>)
    requires ServedAll(w, log, calls, parts, results)
    ensures ServedSomewhere(w, log + Flat(parts), calls, results)
  {
    var c := log + Flat(parts);
    assert c[..|log|] == log && c[|log|..|log| + |Flat(parts)|] == Flat(parts);
    assert ServedAt(w, c, |log|, calls, parts, results);
  }

  lemma NewTurns(w: World, log: Log, t: seq<Turn>, reply: Reply, results: seq<ToolResult>)
    requires |t| % 2 == 1 && LastAnswer(w, log, t, Ok(reply)) && ServedSomewhere(w, log, reply.calls, results)
    ensures var u := t + [Assistant(reply.text, reply.calls)] + [Results(results)];
            GenuineTurn(w, log, u, |t|) && GenuineTurn(w, log, u, |t| + 1)
  {
    var u := t + [Assistant(reply.text, reply.calls)] + [Results(results)];
    assert u[..|t|] == t;
  }

  /** The model was asked about the whole transcript and gave that answer. */
  ghost predicate LastAnswer(w: World, log: Log, t: seq<Turn>, answer: Result<Reply, string>) {
    exists p :: 0 <= p < |log| && log[p] == AskModel(t) && w.model(log[..p]) == answer
  }

  lemma LastAnswerGrows(w: World, log: Log, more: Log, t: seq<Turn>, answer: Result<Reply, string>)
    requires LastAnswer(w, log, t, answer)
    ensures LastAnswer(w, log + more, t, answer)
  {
    var p :| 0 <= p < |log| && log[p] == AskModel(t) && w.model(log[..p]) == answer;
    assert (log + more)[..p] == log[..p] && (log + more)[p] == log[p];
  }

  /** What holds of log and transcript between any two actions of the loop. */
  ghost predicate Sound(w: World, log: Log, t: seq<Turn>) {
    Alternates(t) && ResultIds(log) == AskedIds(t) && Guarded(w, log) && Honest(w, [], log) && Asks(log, t)
    && Genuine(w, log, t)
  }

  /** How a run ends: with the model's own answer that asks for no tools, or with an error
      because the model failed or the cap was reached. */
  ghost predicate Ends(w: World, log: Log, t: seq<Turn>, cap: nat, ok: bool) {
    && log != [] && log[|log| - 1].Emit?
    && var e := log[|log| - 1].event;
    if ok then e.FinalEvent? && LastAnswer(w, log, t, Ok(Reply(e.text, [])))
    else e.ErrorEvent? && (ModelCalls(log) == cap || exists why :: LastAnswer(w, log, t, Err(why)))
  }

  /** The loop ends in at most `maxIters` model calls whatever the model does; the
      transcript it built alternates, and each call saw all of it so far; each requested
      tool call got exactly one emitted result, in order; nothing that changes the system
      ran without the approver's consent; and the last thing emitted is the final answer
      or an error. */
  method Run(w: World, prompt: string, maxIters: int) returns (ok: bool, log: Log, transcript: seq<Turn>)
    ensures ModelCalls(log) <= if maxIters <= 0 then 8 else maxIters
    ensures Sound(w, log, transcript) && transcript[0] == Prompt(prompt)
    ensures Ends(w, log, transcript, if maxIters <= 0 then 8 else maxIters, ok)
    ensures ModelCalls(log) == |transcript| / 2 + 1 || (!ok && ModelCalls(log) == |transcript| / 2)
  {
    var cap := if maxIters <= 0 then DEFAULT_MAX_ITERS else maxIters;
    log, transcript := [], [Prompt(prompt)];
    assert [Prompt(prompt)][..0] == [];
    for iter := 0 to cap
      invariant ModelCalls(log) == iter && |transcript| == 2 * iter + 1
      invariant Sound(w, log, transcript) && transcript[0] == Prompt(prompt)
    {
      var ended;
      log, transcript, ended := Iterate(w, log, transcript, cap);
      if ended.Some? { return ended.value, log, transcript; }
    }
    log := Record(w, log, transcript, ErrorEvent("reached iteration cap"));
    ok := false;
  }

  /** One pass of the loop: either it ends the run, well or badly, or it adds a round. */
  method Iterate(w: World, start: Log, t: seq<Turn>, ghost cap: nat) returns (log: Log, u: seq<Turn>, ended: Option<bool>)
    requires Sound(w, start, t) && |t| == 2 * ModelCalls(start) + 1
    ensures Sound(w, log, u) && ModelCalls(log) == ModelCalls(start) + 1
    ensures if ended.Some? then u == t && Ends(w, log, t, cap, ended.value) else t <= u && |u| == |t| + 2
  {
    u := t;
    var answer := w.model(start);
    log := Call(w, start, t);
    if answer.Err? || answer.value.calls == [] {
      var ok;
      log, ok := Conclude(w, log, t, answer, cap);
      return log, t, Some(ok);
    }
    log, u := Continue(w, log, t, answer.value);
    ended := None;
  }

  /** The model asks for tools: what it says is shown, and the calls are run. */
  method Continue(w: World, log: Log, t: seq<Turn>, reply: Reply) returns (out: Log, u: seq<Turn>)
    requires Sound(w, log, t) && reply.calls != [] && LastAnswer(w, log, t, Ok(reply))
    ensures Sound(w, out, u) && ModelCalls(out) == ModelCalls(log) && t <= u && |u| == |t| + 2
  {
    var shown := Preamble(w, log, t, reply);
    out, u := Round(w, shown, t, reply);
  }

  /** The model failed, or asks for no tools: its answer is final. */
  method Conclude(w: World, log: Log, ghost t: seq<Turn>, answer: Result<Reply, string>, ghost cap: nat)
    returns (out: Log, ok: bool)
    requires Sound(w, log, t) && LastAnswer(w, log, t, answer) && (answer.Ok? ==> answer.value.calls == [])
    ensures Sound(w, out, t) && ModelCalls(out) == ModelCalls(log) && Ends(w, out, t, cap, ok)
  {
    ok := answer.Ok?;
    var e := if ok then FinalEvent(answer.value.text) else ErrorEvent("model call failed");
    out := Record(w, log, t, e);
    LastAnswerGrows(w, log, [Emit(e)], t, answer);
  }

  /** What the model says before its tool calls is shown, if it says anything. */
  method Preamble(w: World, log: Log, ghost t: seq<Turn>, reply: Reply) returns (out: Log)
    requires Sound(w, log, t) && LastAnswer(w, log, t, Ok(reply))
    ensures out == log + if reply.text != "" then [Emit(TextEvent(reply.text))] else []
    ensures Sound(w, out, t) && ModelCalls(out) == ModelCalls(log) && LastAnswer(w, out, t, Ok(reply))
  {
    if reply.text == "" { return log; }
    out := Record(w, log, t, TextEvent(reply.text));
    LastAnswerGrows(w, log, [Emit(TextEvent(reply.text))], t, Ok(reply));
  }

  method Call(w: World, log: Log, t: seq<Turn>) returns (out: Log)
    requires Sound(w, log, t) && |t| == 2 * ModelCalls(log) + 1
    ensures out == log + [AskModel(t)] && Sound(w, out, t) && ModelCalls(out) == ModelCalls(log) + 1
    ensures LastAnswer(w, out, t, w.model(log))
  {
    Appending(w, log, [AskModel(t)], t);
    GenuineGrows(w, log, [AskModel(t)], t);
    assert (log + [AskModel(t)])[..|log|] == log;
    out := log + [AskModel(t)];
  }

  method Record(w: World, log: Log, ghost t: seq<Turn>, e: Event) returns (out: Log)
    requires Sound(w, log, t) && !e.ToolResultEvent?
    ensures out == log + [Emit(e)] && Sound(w, out, t) && ModelCalls(out) == ModelCalls(log)
  {
    Appending(w, log, [Emit(e)], t);
    GenuineGrows(w, log, [Emit(e)], t);
    out := log + [Emit(e)];
  }

  /** The assistant turn, its tool calls, and the turn with their results. */
  method Round(w: World, log: Log, t: seq<Turn>, reply: Reply) returns (out: Log, u: seq<Turn>)
    requires Sound(w, log, t) && reply.calls != [] && LastAnswer(w, log, t, Ok(reply))
    ensures Sound(w, out, u) && ModelCalls(out) == ModelCalls(log)
    ensures t + [Assistant(reply.text, reply.calls)] <= u && |u| == |t| + 2
  {
    var seg, results, parts := RunToolCalls(w, log, reply.calls);
    SegmentRun(w, log, seg);
    u := t + [Assistant(reply.text, reply.calls)] + [Results(results)];
    AsksKept(log, seg, t, u);
    RoundAdded(t, reply, results);
    GenuineRound(w, log, t, reply, parts, results);
    out := log + seg;
  }

  lemma SegmentRun(w: World, log: Log, seg: Log)
    requires Guarded(w, log) && Honest(w, [], log) && Guarded(w, seg) && Honest(w, log, seg)
    ensures Guarded(w, log + seg) && Honest(w, [], log + seg)
    ensures ModelCalls(log + seg) == ModelCalls(log) + ModelCalls(seg)
    ensures ResultIds(log + seg) == ResultIds(log) + ResultIds(seg)
  {
    LogAppend(log, seg);
    GuardedAppend(w, log, seg);
    assert [] + log == log;
    HonestAppend(w, [], log, seg);
  }

  /** One more action of the loop itself: a model call with the transcript so far, or an
      event. */
  lemma Appending(w: World, log: Log, one: Log, t: seq<Turn>)
    requires |one| == 1 && (one[0] == AskModel(t) || (one[0].Emit? && !one[0].event.ToolResultEvent?))
    requires one[0].AskModel? ==> |t| == 2 * ModelCalls(log) + 1
    requires Guarded(w, log) && Honest(w, [], log) && Asks(log, t)
    ensures Guarded(w, log + one) && Honest(w, [], log + one) && Asks(log + one, t)
    ensures ResultIds(log + one) == ResultIds(log)
    ensures ModelCalls(log + one) == ModelCalls(log) + if one[0].AskModel? then 1 else 0
  {
    assert one == [one[0]];
    LogSnoc(log, one[0]);
    SegmentRun(w, log, one);
    assert ResultIds(log) + [] == ResultIds(log);
    AsksSnoc(log, one[0], t);
  }

  lemma AsksSnoc(log: Log, a: Action, t: seq<Turn>)
    requires Asks(log, t) && (a.AskModel? ==> a.transcript == t && |t| == 2 * ModelCalls(log) + 1)
    ensures Asks(log + [a], t)
  {
    var c := log + [a];
    forall p | 0 <= p < |c| && c[p].AskModel?
      ensures c[p].transcript <= t && |c[p].transcript| == 2 * ModelCalls(c[..p]) + 1
    {
      assert c[..p] == log[..p];
    }
  }

  lemma RoundAdded(t: seq<Turn>, reply: Reply, results: seq<ToolResult>)
    requires Alternates(t) && reply.calls != [] && Answers(results) == CallIds(reply.calls)
    ensures var u := t + [Assistant(reply.text, reply.calls)] + [Results(results)];
            Alternates(u) && u[0] == t[0] && AskedIds(u) == AskedIds(t) + CallIds(reply.calls)
  {
    RoundInTurn(t, Assistant(reply.text, reply.calls), Results(results));
    AskedSnoc(t, Assistant(reply.text, reply.calls));
    AskedSnoc(t + [Assistant(reply.text, reply.calls)], Results(results));
  }

  lemma RoundInTurn(t: seq<Turn>, a: Turn, b: Turn)
    requires Alternates(t) && a.Assistant? && a.calls != [] && b.Results? && Answers(b.results) == CallIds(a.calls)
    ensures Alternates(t + [a] + [b])
  {
    var u := t + [a] + [b];
    forall i | 0 < i < |u| ensures InTurn(u, i) {
      if i < |t| { assert InTurn(t, i) && u[i] == t[i] && u[i - 1] == t[i - 1]; }
    }
  }

  lemma AskedSnoc(t: seq<Turn>, turn: Turn)
    ensures AskedIds(t + [turn]) == AskedIds(t) + if turn.Assistant? then CallIds(turn.calls) else []
  {
    assert (t + [turn])[..|t|] == t;
  }
}
