/** The stream parser that turns Claude's JSON lines into activity events (src/activity_parser.py). */
module ActivityParser {
  import opened Wrappers
  import opened Sequences
  import opened Text

  const MIN_TEXT_LEN := 20
  const MAX_SUMMARY_LEN := 80
  const MAX_DETAIL_LEN := 200

  /** A content block; anything that is neither a tool call, a text nor a tool result is `OtherBlock`. */
  datatype Block =
    | ToolUse(id: string, name: string, input: ToolInput)
    | TextBlock(text: string)
    | ToolResult(isEmpty: bool, shown: string)
    | OtherBlock

  /** What a tool is called with: the arguments that its summary may quote, and all of them as text. */
  datatype ToolInput = ToolInput(
    filePath: Option<string>, command: Option<string>, pattern: Option<string>, shown: string)

  datatype Line =
    | Assistant(msgId: string, blocks: seq<Block>)
    | User(blocks: seq<Block>)
    | ErrorLine(message: string)
    | OtherLine

  /** What a line reports. A tool call also carries the id of its block here, which the event itself does not hold. */
  datatype Activity =
    | ToolCall(id: string, name: string, summary: string, detail: string)
    | TextSaid(summary: string, detail: string)
    | ResultSeen(summary: string, detail: string)
    | ErrorSeen(summary: string, detail: string)

  // ---- truncation ----

  function Truncate(text: string, max: nat): (r: string)
    requires max > 0
    ensures |r| <= max
    ensures r == text <==> |text| <= max
    ensures |text| > max ==> text[..max - 1] < r && |r| == max && r[max - 1] == '\U{2026}'
  {
    if |text| <= max then text else text[..max - 1] + "\U{2026}"
  }

  // ---- summaries ----

  function OrElse(text: Option<string>, default: string): string {
    if text.Some? then text.value else default
  }

  function Take(text: string, n: nat): string {
    if |text| <= n then text else text[..n]
  }

  /** A readable line for a tool call. */
  function Summarize(name: string, input: ToolInput): string {
    var normalized := Lower(name);
    if normalized == "read" then "Reading " + OrElse(input.filePath, "?")
    else if normalized == "edit" then "Editing " + OrElse(input.filePath, "?")
    else if normalized == "write" then "Writing " + OrElse(input.filePath, "?")
    else if normalized == "bash" || normalized == "run_shell_command" then
      var command := OrElse(input.command, "");
      if command == "" then "Running command" else "Running: " + Take(command, 60)
    else if normalized == "glob" then "Searching for " + OrElse(input.pattern, "?")
    else if normalized == "grep" then "Searching for '" + OrElse(input.pattern, "?") + "'"
    else name
  }

  function OnOneLine(text: string): (r: string)
    ensures |r| == |text| && '\n' !in r
    ensures forall i :: 0 <= i < |text| ==> r[i] == if text[i] == '\n' then ' ' else text[i]
  {
    if text == [] then [] else [if text[0] == '\n' then ' ' else text[0]] + OnOneLine(text[1..])
  }

  /** The start of a tool's result, on one line. */
  function Preview(isEmpty: bool, shown: string): (r: string)
    ensures '\n' !in r && |r| <= MAX_SUMMARY_LEN
    ensures isEmpty ==> r == "(empty)"
    ensures !isEmpty ==> |r| == Min(|shown|, 80) && forall i :: 0 <= i < |r| ==> r[i] == if shown[i] == '\n' then ' ' else shown[i]
  {
    if isEmpty then "(empty)" else OnOneLine(Take(shown, MAX_SUMMARY_LEN))
  }

  // ---- one line ----

  datatype State = State(seen: set<string>, textLen: nat, msgId: string)

  predicate IsNewTool(block: Block, seen: set<string>) {
    block.ToolUse? && (block.id == "" || block.id !in seen)
  }

  /** The position of the first tool call that has not been reported. */
  function FirstNew(blocks: seq<Block>, seen: set<string>): (k: nat)
    ensures k <= |blocks|
    ensures forall i :: 0 <= i < k ==> !IsNewTool(blocks[i], seen)
    ensures k < |blocks| ==> IsNewTool(blocks[k], seen)
  {
    if blocks == [] || IsNewTool(blocks[0], seen) then 0 else 1 + FirstNew(blocks[1..], seen)
  }

  predicate HasNewTool(blocks: seq<Block>, seen: set<string>) {
    exists block :: block in blocks && IsNewTool(block, seen)
  }

  lemma NewToolIsFound(blocks: seq<Block>, seen: set<string>)
    ensures HasNewTool(blocks, seen) <==> FirstNew(blocks, seen) < |blocks|
    ensures forall block :: block in blocks && IsNewTool(block, seen) ==> HasNewTool(blocks, seen)
  {
    var k := FirstNew(blocks, seen);
    if k < |blocks| {
      assert blocks[k] in blocks;
    }
  }

  function TextOf(block: Block): string {
    if block.TextBlock? then block.text else ""
  }

  function FullText(blocks: seq<Block>): string {
    if blocks == [] then "" else FullText(blocks[..|blocks| - 1]) + TextOf(blocks[|blocks| - 1])
  }

  /** The text of a message is that of its text blocks, in order. */
  lemma {:induction false} TextsJoin(a: seq<Block>, b: seq<Block>)
    ensures FullText(a + b) == FullText(a) + FullText(b)
    ensures forall t :: FullText([TextBlock(t)]) == t
  {
    assert forall t :: [TextBlock(t)][..0] == [];
    if b == [] {
      assert a + b == a;
    } else {
      var init, last := b[..|b| - 1], b[|b| - 1];
      assert (a + b)[..|a + b| - 1] == a + init;
      TextsJoin(a, init);
      AppendAssociative(FullText(a), FullText(init), TextOf(last));
    }
  }

  lemma {:induction false} OthersAddNoText(blocks: seq<Block>)
    requires forall block :: block in blocks ==> !block.TextBlock?
    ensures FullText(blocks) == ""
  {
    if blocks != [] {
      OthersAddNoText(blocks[..|blocks| - 1]);
      assert blocks[|blocks| - 1] in blocks;
    }
  }

  /** How much of the message has been read already. */
  function ReadLen(s: State, msgId: string): nat {
    if s.msgId == msgId then s.textLen else 0
  }

  function Enter(s: State, msgId: string): State {
    State(s.seen, ReadLen(s, msgId), msgId)
  }

  function SeeTool(seen: set<string>, id: string): set<string> {
    if id == "" then seen else seen + {id}
  }

  function TextActivity(delta: string): Option<Activity> {
    var said := Strip(delta);
    if |said| >= MIN_TEXT_LEN then Some(TextSaid(Truncate(said, MAX_SUMMARY_LEN), Truncate(said, MAX_DETAIL_LEN)))
    else None
  }

  /** The text that a line consumes: what is new in it, unless a tool call goes first. */
  function Consumed(s: State, line: Line): string {
    if !line.Assistant? || FirstNew(line.blocks, s.seen) < |line.blocks| then ""
    else FullText(line.blocks)[Min(ReadLen(s, line.msgId), |FullText(line.blocks)|)..]
  }

  function Min(m: nat, n: nat): nat {
    if m <= n then m else n
  }

  function Step(s: State, line: Line): State {
    if !line.Assistant? then s
    else
      var t := Enter(s, line.msgId);
      var k := FirstNew(line.blocks, s.seen);
      if k < |line.blocks| then t.(seen := SeeTool(s.seen, line.blocks[k].id))
      else if |FullText(line.blocks)| > t.textLen then t.(textLen := |FullText(line.blocks)|)
      else t
  }

  function ResultOf(block: Block): Activity
    requires block.ToolResult?
  {
    ResultSeen("Result: " + Preview(block.isEmpty, block.shown), Truncate(block.shown, MAX_DETAIL_LEN))
  }

  function CallOf(block: Block): Activity
    requires block.ToolUse?
  {
    ToolCall(block.id, block.name, Summarize(block.name, block.input), Truncate(block.input.shown, MAX_DETAIL_LEN))
  }

  function FirstResult(blocks: seq<Block>): Option<Activity> {
    if blocks == [] then None
    else if blocks[0].ToolResult? then Some(ResultOf(blocks[0]))
    else FirstResult(blocks[1..])
  }

  /** A user line reports its first tool result and no other. */
  lemma {:induction false} FirstResultExactly(blocks: seq<Block>)
    ensures FirstResult(blocks).None? <==> forall block :: block in blocks ==> !block.ToolResult?
    ensures forall k :: 0 <= k < |blocks| && blocks[k].ToolResult? && (forall j :: 0 <= j < k ==> !blocks[j].ToolResult?) ==>
              FirstResult(blocks) == Some(ResultSeen("Result: " + Preview(blocks[k].isEmpty, blocks[k].shown),
                                                     Truncate(blocks[k].shown, 200)))
  {
    if blocks != [] {
      FirstResultExactly(blocks[1..]);
      assert blocks == [blocks[0]] + blocks[1..];
      assert forall j :: 1 <= j < |blocks| ==> blocks[j] == blocks[1..][j - 1];
    }
  }

  function Reported(s: State, line: Line): Option<Activity> {
    match line
    case Assistant(_, blocks) =>
      var k := FirstNew(blocks, s.seen);
      if k < |blocks| then Some(CallOf(blocks[k]))
      else TextActivity(Consumed(s, line))
    case User(blocks) => FirstResult(blocks)
    case ErrorLine(message) => Some(ErrorSeen(Truncate(message, MAX_SUMMARY_LEN), Truncate(message, MAX_DETAIL_LEN)))
    case OtherLine => None
  }

  class ClaudeParser {
    var seenToolIds: set<string>
    var prevTextLen: nat
    var prevMsgId: string

    constructor ()
      ensures Contents() == State({}, 0, "")
    {
      seenToolIds, prevTextLen, prevMsgId := {}, 0, "";
    }

    function Contents(): State
      reads this
    {
      State(seenToolIds, prevTextLen, prevMsgId)
    }

    method Parse(line: Line) returns (activity: Option<Activity>)
      modifies this
      ensures activity == Reported(old(Contents()), line)
      ensures Contents() == Step(old(Contents()), line)
    {
      match line {
        case Assistant(msgId, blocks) =>
          activity := ParseAssistant(msgId, blocks);
        case User(blocks) =>
          activity := ParseToolResult(blocks);
        case ErrorLine(message) =>
          activity := Some(ErrorSeen(Truncate(message, MAX_SUMMARY_LEN), Truncate(message, MAX_DETAIL_LEN)));
        case OtherLine =>
          activity := None;
      }
    }

    method ParseAssistant(msgId: string, blocks: seq<Block>) returns (activity: Option<Activity>)
      modifies this
      ensures activity == Reported(old(Contents()), Assistant(msgId, blocks))
      ensures Contents() == Step(old(Contents()), Assistant(msgId, blocks))
    {
      if msgId != prevMsgId {
        prevTextLen := 0;
        prevMsgId := msgId;
      }
      for i := 0 to |blocks|
        invariant Contents() == Enter(old(Contents()), msgId)
        invariant FirstNew(blocks, seenToolIds) >= i
      {
        if blocks[i].ToolUse? {
          var id := blocks[i].id;
          if id == "" || id !in seenToolIds {
            assert FirstNew(blocks, seenToolIds) == i;
            if id != "" {
              seenToolIds := seenToolIds + {id};
            }
            return Some(CallOf(blocks[i]));
          }
        }
      }
      var fullText := "";
      for i := 0 to |blocks|
        invariant fullText == FullText(blocks[..i])
      {
        assert blocks[..i + 1][..i] == blocks[..i];
        if blocks[i].TextBlock? {
          fullText := fullText + blocks[i].text;
        }
      }
      TakeAll(blocks);
      activity := None;
      if |fullText| > prevTextLen {
        var delta := fullText[prevTextLen..];
        prevTextLen := |fullText|;
        activity := TextActivity(delta);
      } else {
        assert Strip("") == "";
      }
    }

    method ParseToolResult(blocks: seq<Block>) returns (activity: Option<Activity>)
      ensures activity == FirstResult(blocks)
    {
      activity := None;
      for i := 0 to |blocks|
        invariant FirstResult(blocks) == FirstResult(blocks[i..])
      {
        if blocks[i].ToolResult? {
          return Some(ResultOf(blocks[i]));
        }
      }
    }
  }

  // ---- whole streams ----

  function After(s: State, lines: seq<Line>): State {
    if lines == [] then s else Step(After(s, lines[..|lines| - 1]), lines[|lines| - 1])
  }

  /** What the parser returns, line by line. */
  function Results(s: State, lines: seq<Line>): (rs: seq<Option<Activity>>)
    ensures |rs| == |lines|
  {
    if lines == [] then []
    else
      var init := lines[..|lines| - 1];
      Results(s, init) + [Reported(After(s, init), lines[|lines| - 1])]
  }

  predicate IsCall(r: Option<Activity>) {
    r.Some? && r.value.ToolCall?
  }

  /** The id has been returned by one of the results. */
  predicate IsReturned(rs: seq<Option<Activity>>, id: string) {
    exists i :: 0 <= i < |rs| && IsCall(rs[i]) && rs[i].value.id == id
  }

  lemma ReturnedNext(rs: seq<Option<Activity>>, r: Option<Activity>, id: string)
    ensures IsReturned(rs + [r], id) <==> IsReturned(rs, id) || (IsCall(r) && r.value.id == id)
  {
    var all := rs + [r];
    assert all[|rs|] == r;
    if IsReturned(rs, id) {
      var i :| 0 <= i < |rs| && IsCall(rs[i]) && rs[i].value.id == id;
      assert all[i] == rs[i];
    }
  }

  /** The parser remembers exactly the ids that it has returned. */
  lemma {:induction false} RemembersReturned(s: State, lines: seq<Line>, id: string)
    requires id != ""
    ensures id in After(s, lines).seen <==> id in s.seen || IsReturned(Results(s, lines), id)
  {
    if lines != [] {
      var init, last := lines[..|lines| - 1], lines[|lines| - 1];
      RemembersReturned(s, init, id);
      ReturnedNext(Results(s, init), Reported(After(s, init), last), id);
      if last.User? {
        ResultsAreNoCalls(last.blocks);
      }
    }
  }

  /** The result is the call of this block: its id, its name, its summary and the start of its input. */
  predicate CallsBlock(r: Option<Activity>, block: Block) {
    block.ToolUse? && IsCall(r) && r.value.id == block.id && r.value.name == block.name
    && r.value.summary == Summarize(block.name, block.input)
    && r.value.detail == Truncate(block.input.shown, 200)
  }

  /** The block is a tool call that a stream has not returned yet, or one without an id. */
  predicate IsPending(block: Block, seen: set<string>, rs: seq<Option<Activity>>) {
    block.ToolUse? && (block.id == "" || (block.id !in seen && !IsReturned(rs, block.id)))
  }

  lemma {:induction false} ResultsTake(s: State, lines: seq<Line>, i: nat)
    requires i < |lines|
    ensures Results(s, lines)[..i] == Results(s, lines[..i])
    ensures Results(s, lines)[i] == Reported(After(s, lines[..i]), lines[i])
  {
    var init := lines[..|lines| - 1];
    if i < |init| {
      ResultsTake(s, init, i);
      assert init[..i] == lines[..i];
    } else {
      assert lines[..i] == init;
    }
  }

  lemma PendingIsNew(s: State, lines: seq<Line>, block: Block)
    ensures IsPending(block, s.seen, Results(s, lines)) <==> IsNewTool(block, After(s, lines).seen)
  {
    if block.ToolUse? && block.id != "" {
      RemembersReturned(s, lines, block.id);
    }
  }

  /** Over any stream, a line returns a tool call exactly when its message has a pending one; it is then the call of the
      first pending block, and everything before that block had been returned already. */
  lemma CallsFirstPending(s: State, lines: seq<Line>, i: nat)
    requires i < |lines| && lines[i].Assistant?
    ensures
      var before, r, blocks := Results(s, lines)[..i], Results(s, lines)[i], lines[i].blocks;
      && (IsCall(r) <==> exists k :: 0 <= k < |blocks| && IsPending(blocks[k], s.seen, before))
      && (IsCall(r) ==> exists k :: 0 <= k < |blocks| && IsPending(blocks[k], s.seen, before) && CallsBlock(r, blocks[k])
                                    && forall j :: 0 <= j < k ==> !IsPending(blocks[j], s.seen, before))
  {
    var blocks := lines[i].blocks;
    ResultsTake(s, lines, i);
    forall k | 0 <= k < |blocks|
      ensures IsPending(blocks[k], s.seen, Results(s, lines)[..i]) <==> IsNewTool(blocks[k], After(s, lines[..i]).seen)
    {
      PendingIsNew(s, lines[..i], blocks[k]);
    }
    var k := FirstNew(blocks, After(s, lines[..i]).seen);
    if k < |blocks| {
      assert IsPending(blocks[k], s.seen, Results(s, lines)[..i]) && CallsBlock(Results(s, lines)[i], blocks[k]);
    }
  }

  lemma OtherLinesCallNothing(s: State, lines: seq<Line>, i: nat)
    requires i < |lines| && !lines[i].Assistant?
    ensures !IsCall(Results(s, lines)[i])
  {
    ResultsTake(s, lines, i);
    if lines[i].User? {
      ResultsAreNoCalls(lines[i].blocks);
    }
  }

  lemma {:induction false} ResultsAreNoCalls(blocks: seq<Block>)
    ensures !IsCall(FirstResult(blocks))
  {
    if blocks != [] {
      ResultsAreNoCalls(blocks[1..]);
    }
  }

  /** Over any stream no two tool calls that are returned have the same id, unless it is empty. */
  lemma NoToolReportedTwice(s: State, lines: seq<Line>, i: nat, j: nat)
    requires i < j < |lines| && IsCall(Results(s, lines)[i]) && IsCall(Results(s, lines)[j])
    requires Results(s, lines)[i].value.id != ""
    ensures Results(s, lines)[i].value.id != Results(s, lines)[j].value.id
  {
    var rs := Results(s, lines);
    if !lines[j].Assistant? {
      OtherLinesCallNothing(s, lines, j);
    } else {
      CallsFirstPending(s, lines, j);
      var k :| 0 <= k < |lines[j].blocks| && IsPending(lines[j].blocks[k], s.seen, rs[..j]) && CallsBlock(rs[j], lines[j].blocks[k]);
      assert rs[..j][i] == rs[i];
    }
  }

  /** The tool calls in a message that are still to be reported. */
  function Unseen(blocks: seq<Block>, seen: set<string>): set<string> {
    set block | block in blocks && block.ToolUse? && block.id !in seen :: block.id
  }

  predicate AllToolsNamed(blocks: seq<Block>) {
    forall block :: block in blocks && block.ToolUse? ==> block.id != ""
  }

  /** Each line reports one tool call only. */
  lemma OneToolPerLine(s: State, msgId: string, blocks: seq<Block>)
    requires AllToolsNamed(blocks)
    ensures
      var before, after := Unseen(blocks, s.seen), Unseen(blocks, Step(s, Assistant(msgId, blocks)).seen);
      after <= before && |after| == if before == {} then 0 else |before| - 1
  {
    var before := Unseen(blocks, s.seen);
    var k := FirstNew(blocks, s.seen);
    if k < |blocks| {
      var id := blocks[k].id;
      assert blocks[k] in blocks && id in before;
      assert Unseen(blocks, SeeTool(s.seen, id)) == before - {id};
    } else {
      NewToolIsFound(blocks, s.seen);
      assert before == {};
    }
  }

  /** So a message with n tool calls to report is drained by n copies of its line and by no fewer. */
  lemma {:induction false} RepeatsDrainTools(s: State, msgId: string, blocks: seq<Block>, n: nat)
    requires AllToolsNamed(blocks)
    ensures
      var todo := |Unseen(blocks, s.seen)|;
      |Unseen(blocks, After(s, seq(n, _ => Assistant(msgId, blocks))).seen)| == if n >= todo then 0 else todo - n
  {
    var lines := seq(n, _ => Assistant(msgId, blocks));
    if n > 0 {
      RepeatsDrainTools(s, msgId, blocks, n - 1);
      assert lines[..n - 1] == seq(n - 1, _ => Assistant(msgId, blocks));
      OneToolPerLine(After(s, lines[..n - 1]), msgId, blocks);
    }
  }

  /** A tool call without an id is reported again by every line that holds it, and keeps the text after it unread. */
  lemma UnnamedToolBlocksText(s: State, line: Line, i: nat)
    requires line.Assistant? && i < |line.blocks| && line.blocks[i].ToolUse? && line.blocks[i].id == ""
    ensures Reported(s, line).Some? && Reported(s, line).value.ToolCall?
    ensures Consumed(s, line) == "" && ReadLen(Step(s, line), line.msgId) == ReadLen(s, line.msgId)
  {
    assert IsNewTool(line.blocks[i], s.seen);
  }

  // ---- text ----

  function Joined(s: State, lines: seq<Line>): string {
    if lines == [] then ""
    else
      var init := lines[..|lines| - 1];
      Joined(s, init) + Consumed(After(s, init), lines[|lines| - 1])
  }

  /** The newest snapshot of the message, from `first` on. */
  function LastText(first: string, lines: seq<Line>): string {
    if lines == [] then first
    else
      var last := lines[|lines| - 1];
      if last.Assistant? then FullText(last.blocks) else LastText(first, lines[..|lines| - 1])
  }

  /** Every assistant line belongs to one message, whose text only grows. */
  predicate Grows(msgId: string, first: string, lines: seq<Line>) {
    lines == [] ||
    var init, last := lines[..|lines| - 1], lines[|lines| - 1];
    && Grows(msgId, first, init)
    && (last.Assistant? ==> last.msgId == msgId && LastText(first, init) <= FullText(last.blocks))
  }

  lemma ConsumedExtends(s: State, line: Line, text: string)
    requires line.Assistant? && ReadLen(s, line.msgId) <= |text| && text <= FullText(line.blocks)
    ensures
      var full, read := FullText(line.blocks), ReadLen(Step(s, line), line.msgId);
      && read <= |full|
      && full[..read] == text[..ReadLen(s, line.msgId)] + Consumed(s, line)
  {
    var full, read := FullText(line.blocks), ReadLen(s, line.msgId);
    assert full[..read] == text[..read];
    assert full[..read] + full[read..] == full;
  }

  /** While one message grows, the texts consumed are disjoint and join up to exactly the part of it that has been
      read, whatever tool calls come first and whatever other lines come between. */
  lemma {:induction false} DeltasJoinToPrefix(s: State, msgId: string, first: string, lines: seq<Line>)
    requires Grows(msgId, first, lines) && ReadLen(s, msgId) <= |first|
    ensures
      var text, read := LastText(first, lines), ReadLen(After(s, lines), msgId);
      && read <= |text|
      && text[..read] == first[..ReadLen(s, msgId)] + Joined(s, lines)
  {
    if lines != [] {
      var init, last := lines[..|lines| - 1], lines[|lines| - 1];
      DeltasJoinToPrefix(s, msgId, first, init);
      var text, t := LastText(first, init), After(s, init);
      if last.Assistant? {
        ConsumedExtends(t, last, text);
        AppendAssociative(first[..ReadLen(s, msgId)], Joined(s, init), Consumed(t, last));
      }
    }
  }

  /** A line without a new tool call reads the message to its end, so nothing that a tool call held back is lost. */
  lemma CaughtUp(s: State, line: Line)
    requires line.Assistant? && ReadLen(s, line.msgId) <= |FullText(line.blocks)|
    requires !HasNewTool(line.blocks, s.seen)
    ensures ReadLen(Step(s, line), line.msgId) == |FullText(line.blocks)|
    ensures Consumed(s, line) == FullText(line.blocks)[ReadLen(s, line.msgId)..]
  {
    NewToolIsFound(line.blocks, s.seen);
  }

  /** Over any stream, a line returns text exactly when its message has no pending tool call and at least twenty
      characters of it, trimmed, are new; then it returns their start. Shorter text is consumed and never seen. */
  lemma TextReportedExactly(s: State, lines: seq<Line>, i: nat)
    requires i < |lines|
    ensures
      var r, said := Results(s, lines)[i], Strip(Consumed(After(s, lines[..i]), lines[i]));
      && (r.Some? && r.value.TextSaid? <==> |said| >= 20)
      && (|said| >= 20 ==> lines[i].Assistant? && !HasNewTool(lines[i].blocks, After(s, lines[..i]).seen)
                           && r.value.summary == Truncate(said, 80) && r.value.detail == Truncate(said, 200))
  {
    ResultsTake(s, lines, i);
    assert Strip("") == "";
    if lines[i].Assistant? {
      NewToolIsFound(lines[i].blocks, After(s, lines[..i]).seen);
    } else if lines[i].User? {
      ResultsAreNoText(lines[i].blocks);
    }
  }

  lemma {:induction false} ResultsAreNoText(blocks: seq<Block>)
    ensures FirstResult(blocks).Some? ==> FirstResult(blocks).value.ResultSeen?
  {
    if blocks != [] {
      ResultsAreNoText(blocks[1..]);
    }
  }

  /** Reading is forgotten between messages: a message that returns is consumed from its start again. */
  lemma ReturningMessageIsReadAgain(s: State, line: Line, other: Line)
    requires line.Assistant? && other.Assistant? && line.msgId != other.msgId
    requires !HasNewTool(line.blocks, s.seen)
    ensures Consumed(Step(Step(s, line), other), line) == FullText(line.blocks)
  {
    var t := Step(Step(s, line), other);
    assert ReadLen(t, line.msgId) == 0 && s.seen <= t.seen;
    assert !HasNewTool(line.blocks, t.seen);
    CaughtUp(t, line);
  }
}
