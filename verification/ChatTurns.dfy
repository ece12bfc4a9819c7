/** The chat transcript: LangChain messages in, turns of segments out. The single indexed pass is proved to
    agree with a plain search through the messages. */
module ChatTurns {
  import opened Common
  import opened Text

  /** A tool call after `_tc_id` and the name and argument fallbacks; a missing id is empty. */
  datatype Call = Call(id: string, name: string, args: string)

  /** Content blocks; `thought` is what `_thinking_from_block` finds, empty if nothing. */
  datatype Block =
    | TextBlock(text: string)
    | ThinkingBlock(thought: string, text: string)
    | CallBlock(call: Call)
    | OtherBlock(text: string)

  datatype Content = Plain(text: string) | Blocks(blocks: seq<Block>)

  /** `thought` of an assistant message is the reasoning in its `additional_kwargs`. Messages of any other
      type are ignored. */
  datatype Message =
    | Human(id: string, content: Content)
    | Assistant(id: string, content: Content, thought: string, calls: seq<Call>)
    | Tool(callId: string, content: Content)
    | Ignored

  datatype Segment =
    | TextSegment(content: string)
    | ThinkingSegment(content: string)
    | CallSegment(id: string, name: string, args: string, result: Option<string>)

  datatype Role = User | AssistantRole

  datatype Turn = Turn(id: string, role: Role, segments: seq<Segment>)

  const SKILL := "skill"

  // ---------------------------------------------------------------- one message

  function JoinedText(blocks: seq<Block>): string {
    if blocks == [] then "" else
      (if blocks[0].TextBlock? then blocks[0].text else "") + JoinedText(blocks[1..])
  }

  function UserText(c: Content): string {
    if c.Plain? then c.text else JoinedText(c.blocks)
  }

  function Pieces(blocks: seq<Block>): seq<string> {
    seq(|blocks|, i requires 0 <= i < |blocks| => if blocks[i].CallBlock? then "" else blocks[i].text)
  }

  function ToolText(c: Content): string {
    if c.Plain? then c.text else Join(Pieces(c.blocks), "\n")
  }

  function UserTurn(m: Message): Turn
    requires m.Human?
  {
    Turn(m.id, User, [TextSegment(UserText(m.content))])
  }

  function Shown(call: Call): Segment {
    CallSegment(call.id, call.name, call.args, None)
  }

  /** The last of the first n calls with this id. */
  function LastCall(calls: seq<Call>, n: nat, id: string): Option<Call>
    requires n <= |calls|
  {
    if n == 0 then None else if calls[n - 1].id == id then Some(calls[n - 1]) else LastCall(calls, n - 1, id)
  }

  /** The normalized call behind a content block. */
  function Resolve(calls: seq<Call>, call: Call): Call {
    var found := LastCall(calls, |calls|, call.id);
    if call.id != "" && found.Some? then found.value else call
  }

  function BlockSegment(b: Block, calls: seq<Call>): seq<Segment> {
    match b
    case TextBlock(text) => if text != "" then [TextSegment(text)] else []
    case ThinkingBlock(thought, _) => if thought != "" then [ThinkingSegment(thought)] else []
    case CallBlock(call) => [Shown(Resolve(calls, call))]
    case OtherBlock(_) => []
  }

  function BlockSegments(blocks: seq<Block>, calls: seq<Call>, n: nat): seq<Segment>
    requires n <= |blocks|
  {
    if n == 0 then [] else BlockSegments(blocks, calls, n - 1) + BlockSegment(blocks[n - 1], calls)
  }

  predicate Is(s: Segment, id: string) {
    s.CallSegment? && s.id == id
  }

  /** The last of the first n segments that is a call with this id, or -1. */
  function LastSegment(segments: seq<Segment>, n: nat, id: string): (s: int)
    requires n <= |segments|
    ensures -1 <= s < n
    ensures s >= 0 ==> Is(segments[s], id)
    ensures forall k | s < k < n :: !Is(segments[k], id)
  {
    if n == 0 then -1 else if Is(segments[n - 1], id) then n - 1 else LastSegment(segments, n - 1, id)
  }

  predicate HasCall(segments: seq<Segment>, id: string) {
    LastSegment(segments, |segments|, id) >= 0
  }

  /** The calls no block showed, each once. */
  function WithRest(segments: seq<Segment>, calls: seq<Call>, n: nat): seq<Segment>
    requires n <= |calls|
  {
    if n == 0 then segments else
      var before := WithRest(segments, calls, n - 1);
      var call := calls[n - 1];
      if call.id != "" && !HasCall(before, call.id) then before + [Shown(call)] else before
  }

  function Segments(m: Message): seq<Segment>
    requires m.Assistant?
  {
    (if m.thought != "" then [ThinkingSegment(m.thought)] else []) +
    match m.content
    case Blocks(blocks) => WithRest(BlockSegments(blocks, m.calls, |blocks|), m.calls, |m.calls|)
    case Plain(text) =>
      (if Strip(text) != "" then [TextSegment(text)] else []) +
      seq(|m.calls|, i requires 0 <= i < |m.calls| => Shown(m.calls[i]))
  }

  // ---------------------------------------------------------------- searching the messages

  predicate Calls(m: Message, id: string) {
    m.Assistant? && id != "" && HasCall(Segments(m), id)
  }

  /** The last of the first n messages that makes a call with this id, or -1. */
  function LastCaller(ms: seq<Message>, n: nat, id: string): (a: int)
    requires n <= |ms|
    ensures -1 <= a < n
    ensures a >= 0 ==> Calls(ms[a], id)
    ensures forall k | a < k < n :: !Calls(ms[k], id)
  {
    if n == 0 then -1 else if Calls(ms[n - 1], id) then n - 1 else LastCaller(ms, n - 1, id)
  }

  /** One of the first n messages called the skill tool under this id. */
  predicate EverSkill(ms: seq<Message>, n: nat, id: string)
    requires n <= |ms|
  {
    id != "" && exists a | 0 <= a < n :: CallsSkill(ms[a], id)
  }

  predicate CallsSkill(m: Message, id: string) {
    m.Assistant? && exists s | 0 <= s < |Segments(m)| :: IsSkill(Segments(m)[s], id)
  }

  predicate IsSkill(s: Segment, id: string) {
    Is(s, id) && s.name == SKILL
  }

  /** The last of the first n messages that is not ignored, or -1. */
  function LastSignificant(ms: seq<Message>, n: nat): (k: int)
    requires n <= |ms|
    ensures -1 <= k < n
  {
    if n == 0 then -1 else if ms[n - 1].Ignored? then LastSignificant(ms, n - 1) else n - 1
  }

  /** After n messages a skill's body is awaited: the last one that counts is a tool result for an id that
      some earlier message used for the skill tool. */
  function Awaited(ms: seq<Message>, n: nat): Option<string>
    requires n <= |ms|
  {
    var k := LastSignificant(ms, n);
    if k >= 0 && ms[k].Tool? && LastCaller(ms, k, ms[k].callId) >= 0 && EverSkill(ms, k, ms[k].callId)
    then Some(ms[k].callId) else None
  }

  /** Message k is a skill's body, not something a person typed. */
  predicate Folded(ms: seq<Message>, k: nat)
    requires k < |ms|
  {
    ms[k].Human? && Awaited(ms, k).Some?
  }

  predicate Emits(ms: seq<Message>, k: nat)
    requires k < |ms|
  {
    ms[k].Assistant? || (ms[k].Human? && !Folded(ms, k))
  }

  /** What message k sends to a call: its id and the text. */
  function Sent(ms: seq<Message>, k: nat): Option<(string, string)>
    requires k < |ms|
  {
    if ms[k].Tool? && LastCaller(ms, k, ms[k].callId) >= 0 then Some((ms[k].callId, ToolText(ms[k].content)))
    else if Folded(ms, k) then Some((Awaited(ms, k).value, UserText(ms[k].content)))
    else None
  }

  /** Segment s of message a is the latest call with its id among the first n messages. */
  predicate Latest(ms: seq<Message>, n: nat, a: nat, s: nat)
    requires a < n <= |ms| && ms[a].Assistant? && s < |Segments(ms[a])|
  {
    var g := Segments(ms[a])[s];
    g.CallSegment? && LastCaller(ms, n, g.id) == a && LastSegment(Segments(ms[a]), |Segments(ms[a])|, g.id) == s
  }

  /** What segment s of message a shows after n messages: the last text sent for its id while it was the
      latest call with that id. */
  function ResultOf(ms: seq<Message>, a: nat, s: nat, n: nat): Option<string>
    requires a < |ms| && n <= |ms| && ms[a].Assistant? && s < |Segments(ms[a])|
  {
    if n <= a + 1 then None
    else if Latest(ms, n - 1, a, s) && Sent(ms, n - 1).Some? && Sent(ms, n - 1).value.0 == Segments(ms[a])[s].id
    then Some(Sent(ms, n - 1).value.1)
    else ResultOf(ms, a, s, n - 1)
  }

  function SegmentAt(ms: seq<Message>, a: nat, s: nat, n: nat): Segment
    requires a < |ms| && n <= |ms| && ms[a].Assistant? && s < |Segments(ms[a])|
  {
    var g := Segments(ms[a])[s];
    if g.CallSegment? then g.(result := ResultOf(ms, a, s, n)) else g
  }

  /** The turn message a shows after n messages. */
  function TurnAt(ms: seq<Message>, a: nat, n: nat): Turn
    requires a < |ms| && n <= |ms| && (ms[a].Human? || ms[a].Assistant?)
  {
    if ms[a].Human? then UserTurn(ms[a]) else
      var size := |Segments(ms[a])|;
      Turn(ms[a].id, AssistantRole, seq(size, s requires 0 <= s < size => SegmentAt(ms, a, s, n)))
  }

  /** How many of the first k messages emit a turn. */
  function Position(ms: seq<Message>, k: nat): nat
    requires k <= |ms|
  {
    if k == 0 then 0 else Position(ms, k - 1) + if Emits(ms, k - 1) then 1 else 0
  }

  /** The turns of the first k messages, as they show after n. */
  function TurnsAt(ms: seq<Message>, k: nat, n: nat): (turns: seq<Turn>)
    requires k <= |ms| && n <= |ms|
    ensures |turns| == Position(ms, k)
  {
    if k == 0 then [] else
      TurnsAt(ms, k - 1, n) + if Emits(ms, k - 1) then [TurnAt(ms, k - 1, n)] else []
  }

  /** The transcript, by search. */
  function Transcript(ms: seq<Message>): seq<Turn> {
    TurnsAt(ms, |ms|, |ms|)
  }

  lemma {:induction false} TurnIsAtPosition(ms: seq<Message>, a: nat, k: nat, n: nat)
    requires a < k <= |ms| && n <= |ms| && Emits(ms, a)
    ensures Position(ms, a) < Position(ms, k) && TurnsAt(ms, k, n)[Position(ms, a)] == TurnAt(ms, a, n)
  {
    hide Emits, TurnAt;
    if a < k - 1 {
      TurnIsAtPosition(ms, a, k - 1, n);
    }
  }

  // ---------------------------------------------------------------- the index

  /** The index after n messages: each id leads to the latest call with it. */
  ghost predicate Indexed(ms: seq<Message>, n: nat, index: map<string, (nat, nat)>)
    requires n <= |ms|
  {
    forall c :: IndexedAt(ms, n, index, c)
  }

  predicate IndexedAt(ms: seq<Message>, n: nat, index: map<string, (nat, nat)>, c: string)
    requires n <= |ms|
  {
    var a := LastCaller(ms, n, c);
    && (c in index <==> a >= 0)
    && (a >= 0 ==> index[c] == (Position(ms, a), LastSegment(Segments(ms[a]), |Segments(ms[a])|, c)))
  }

  /** Where an index entry leads there is a tool call with that id. */
  predicate Points(turns: seq<Turn>, at: (nat, nat), c: string) {
    at.0 < |turns| && at.1 < |turns[at.0].segments| && Is(turns[at.0].segments[at.1], c)
  }

  lemma IndexPoints(ms: seq<Message>, n: nat, index: map<string, (nat, nat)>, c: string)
    requires n <= |ms| && Indexed(ms, n, index) && c in index
    ensures Points(TurnsAt(ms, n, n), index[c], c)
  {
    hide Segments;
    assert IndexedAt(ms, n, index, c);
    TurnIsAtPosition(ms, LastCaller(ms, n, c), n, n);
  }

  function WithResult(turns: seq<Turn>, at: (nat, nat), c: string, text: string): seq<Turn>
    requires Points(turns, at, c)
  {
    var turn := turns[at.0];
    turns[at.0 := turn.(segments := turn.segments[at.1 := turn.segments[at.1].(result := Some(text))])]
  }

  lemma TurnAfterNothing(ms: seq<Message>, k: nat, n: nat)
    requires k < n < |ms| && Sent(ms, n).None? && (ms[k].Human? || ms[k].Assistant?)
    ensures TurnAt(ms, k, n + 1) == TurnAt(ms, k, n)
  {
    hide Segments, Sent, Latest;
  }

  /** A message that sends nothing changes no turn before it. */
  lemma {:induction false} NothingSent(ms: seq<Message>, k: nat, n: nat)
    requires k <= n < |ms| && Sent(ms, n).None?
    ensures TurnsAt(ms, k, n + 1) == TurnsAt(ms, k, n)
  {
    hide Segments, Sent, Latest;
    if k > 0 {
      NothingSent(ms, k - 1, n);
      if Emits(ms, k - 1) {
        TurnAfterNothing(ms, k - 1, n);
      }
    }
  }

  /** A message that sends text to an id changes one segment: the latest call with that id. */
  lemma TurnAfterSent(ms: seq<Message>, k: nat, n: nat, c: string, text: string)
    requires k < n < |ms| && Sent(ms, n) == Some((c, text)) && Emits(ms, k)
    ensures var a := LastCaller(ms, n, c);
            if k != a then TurnAt(ms, k, n + 1) == TurnAt(ms, k, n) else
              var s := LastSegment(Segments(ms[a]), |Segments(ms[a])|, c);
              var turn := TurnAt(ms, k, n);
              TurnAt(ms, k, n + 1) == turn.(segments := turn.segments[s := turn.segments[s].(result := Some(text))])
  {
    hide Segments, Sent, Emits, LastCaller, LastSegment;
  }

  lemma {:induction false} TurnsAfterSent(ms: seq<Message>, k: nat, n: nat, c: string, text: string, at: (nat, nat))
    requires k <= n < |ms| && Sent(ms, n) == Some((c, text)) && LastCaller(ms, n, c) >= 0
    requires var a := LastCaller(ms, n, c); at == (Position(ms, a), LastSegment(Segments(ms[a]), |Segments(ms[a])|, c))
    ensures var a := LastCaller(ms, n, c);
            if k <= a then TurnsAt(ms, k, n + 1) == TurnsAt(ms, k, n) else
              && Points(TurnsAt(ms, k, n), at, c)
              && TurnsAt(ms, k, n + 1) == WithResult(TurnsAt(ms, k, n), at, c, text)
  {
    hide Segments, Sent, LastCaller, LastSegment;
    if k > 0 {
      TurnsAfterSent(ms, k - 1, n, c, text, at);
      if Emits(ms, k - 1) {
        TurnAfterSent(ms, k - 1, n, c, text);
      }
      if k - 1 == LastCaller(ms, n, c) {
        TurnIsAtPosition(ms, k - 1, k, n);
      }
    }
  }

  /** The index after an assistant message in turn t, whose first j segments have been entered. */
  ghost predicate Entered(before: map<string, (nat, nat)>, segments: seq<Segment>, j: nat, t: nat,
                          index: map<string, (nat, nat)>)
    requires j <= |segments|
  {
    forall c :: EnteredAt(before, segments, j, t, index, c)
  }

  predicate EnteredAt(before: map<string, (nat, nat)>, segments: seq<Segment>, j: nat, t: nat,
                      index: map<string, (nat, nat)>, c: string)
    requires j <= |segments|
  {
    var s := LastSegment(segments, j, c);
    if c != "" && s >= 0 then c in index && index[c] == (t, s)
    else (c in index <==> c in before) && (c in before ==> index[c] == before[c])
  }

  lemma EnteredIsIndexed(ms: seq<Message>, n: nat, before: map<string, (nat, nat)>, index: map<string, (nat, nat)>)
    requires n < |ms| && ms[n].Assistant? && Indexed(ms, n, before)
    requires Entered(before, Segments(ms[n]), |Segments(ms[n])|, Position(ms, n), index)
    ensures Indexed(ms, n + 1, index)
  {
    hide Segments;
    var next := n + 1;
    forall c ensures IndexedAt(ms, next, index, c) {
      assert IndexedAt(ms, n, before, c);
      assert EnteredAt(before, Segments(ms[n]), |Segments(ms[n])|, Position(ms, n), index, c);
    }
  }

  lemma IndexStays(ms: seq<Message>, n: nat, index: map<string, (nat, nat)>)
    requires n < |ms| && !ms[n].Assistant? && Indexed(ms, n, index)
    ensures Indexed(ms, n + 1, index)
  {
    var next := n + 1;
    forall c ensures IndexedAt(ms, next, index, c) {
      assert IndexedAt(ms, n, index, c);
    }
  }

  /** What is awaited is in the index. */
  lemma AwaitedIsKnown(ms: seq<Message>, n: nat)
    requires n <= |ms| && Awaited(ms, n).Some?
    ensures LastCaller(ms, n, Awaited(ms, n).value) >= 0
  {
    hide Segments, EverSkill;
    var c := Awaited(ms, n).value;
    assert LastCaller(ms, n, c) >= LastCaller(ms, LastSignificant(ms, n), c);
  }

  // ---------------------------------------------------------------- the pass itself

  method CallsById(calls: seq<Call>) returns (byId: map<string, Call>)
    ensures forall c :: c in byId <==> c != "" && LastCall(calls, |calls|, c).Some?
    ensures forall c | c in byId :: byId[c] == LastCall(calls, |calls|, c).value
  {
    byId := map[];
    for i := 0 to |calls|
      invariant forall c :: c in byId <==> c != "" && LastCall(calls, i, c).Some?
      invariant forall c | c in byId :: byId[c] == LastCall(calls, i, c).value
    {
      if calls[i].id != "" {
        byId := byId[calls[i].id := calls[i]];
      }
    }
  }

  method BuildAssistantTurn(m: Message) returns (turn: Turn)
    requires m.Assistant?
    ensures turn == Turn(m.id, AssistantRole, Segments(m))
  {
    hide Strip, LastCall, WithRest, BlockSegments;
    var byId := CallsById(m.calls);
    var segments: seq<Segment> := [];
    if m.thought != "" {
      segments := segments + [ThinkingSegment(m.thought)];
    }
    if m.content.Plain? {
      if Strip(m.content.text) != "" {
        segments := segments + [TextSegment(m.content.text)];
      }
      ghost var lead := segments;
      for i := 0 to |m.calls|
        invariant segments == lead + seq(i, j requires 0 <= j < i => Shown(m.calls[j]))
      {
        segments := segments + [Shown(m.calls[i])];
      }
      return Turn(m.id, AssistantRole, segments);
    }
    var blocks := m.content.blocks;
    var shown := BuildBlocks(blocks, m.calls, byId);
    turn := Turn(m.id, AssistantRole, segments + shown);
  }

  method BuildBlocks(blocks: seq<Block>, calls: seq<Call>, byId: map<string, Call>) returns (segments: seq<Segment>)
    requires forall c :: c in byId <==> c != "" && LastCall(calls, |calls|, c).Some?
    requires forall c | c in byId :: byId[c] == LastCall(calls, |calls|, c).value
    ensures segments == WithRest(BlockSegments(blocks, calls, |blocks|), calls, |calls|)
  {
    NoCallYet();
    hide LastCall, HasCall;
    segments := [];
    var emitted: set<string> := {};
    for i := 0 to |blocks|
      invariant segments == BlockSegments(blocks, calls, i)
      invariant forall c :: c in emitted <==> c != "" && HasCall(segments, c)
    {
      var b := blocks[i];
      ghost var before := segments;
      if b.TextBlock? {
        if b.text != "" {
          segments := segments + [TextSegment(b.text)];
        }
      } else if b.ThinkingBlock? {
        if b.thought != "" {
          segments := segments + [ThinkingSegment(b.thought)];
        }
      } else if b.CallBlock? {
        var call := if b.call.id in byId then byId[b.call.id] else b.call;
        segments := segments + [Shown(call)];
        if call.id != "" {
          emitted := emitted + {call.id};
        }
      }
      if segments != before {
        HasCallGrows(before, segments[|before|]);
      }
    }
    ghost var fromBlocks := segments;
    for i := 0 to |calls|
      invariant segments == WithRest(fromBlocks, calls, i)
      invariant forall c :: c in emitted <==> c != "" && HasCall(segments, c)
    {
      if calls[i].id != "" && calls[i].id !in emitted {
        HasCallGrows(segments, Shown(calls[i]));
        segments := segments + [Shown(calls[i])];
        emitted := emitted + {calls[i].id};
      }
    }
  }

  lemma NoCallYet()
    ensures forall c :: !HasCall([], c)
  {
  }

  lemma HasCallGrows(segments: seq<Segment>, g: Segment)
    ensures forall c :: HasCall(segments + [g], c) <==> HasCall(segments, c) || Is(g, c)
  {
    forall c ensures HasCall(segments + [g], c) <==> HasCall(segments, c) || Is(g, c) {
      var after := segments + [g];
      if HasCall(segments, c) {
        assert after[LastSegment(segments, |segments|, c)] == segments[LastSegment(segments, |segments|, c)];
      }
      if HasCall(after, c) {
        var s := LastSegment(after, |after|, c);
        assert s < |segments| ==> segments[s] == after[s];
      }
      assert after[|segments|] == g;
    }
  }

  method EnterSegments(segments: seq<Segment>, t: nat, before: map<string, (nat, nat)>, skills: set<string>)
      returns (index: map<string, (nat, nat)>, skillIds: set<string>)
    ensures Entered(before, segments, |segments|, t, index)
    ensures forall c :: c in skillIds <==>
              c in skills || (c != "" && exists s | 0 <= s < |segments| :: IsSkill(segments[s], c))
  {
    index, skillIds := before, skills;
    for j := 0 to |segments|
      invariant Entered(before, segments, j, t, index)
      invariant forall c :: c in skillIds <==>
                  c in skills || (c != "" && exists s | 0 <= s < j :: IsSkill(segments[s], c))
    {
      var g := segments[j];
      ghost var was := index;
      if g.CallSegment? && g.id != "" {
        index := index[g.id := (t, j)];
        if g.name == SKILL {
          skillIds := skillIds + {g.id};
        }
      }
      ghost var next := j + 1;
      forall c ensures EnteredAt(before, segments, next, t, index, c) {
        assert EnteredAt(before, segments, j, t, was, c);
      }
    }
  }

  /** `_attach_tool_result` and `_fold_skill_body` once the call is found. */
  method SetResult(turns: seq<Turn>, index: map<string, (nat, nat)>, c: string, text: string) returns (after: seq<Turn>)
    requires c in index && Points(turns, index[c], c)
    ensures after == WithResult(turns, index[c], c, text)
  {
    var (t, s) := index[c];
    var segments := turns[t].segments;
    after := turns[t := turns[t].(segments := segments[s := segments[s].(result := Some(text))])];
  }

  /** `build_turns`: one pass, and the transcript the search gives. */
  method BuildTurns(ms: seq<Message>) returns (turns: seq<Turn>)
    ensures turns == Transcript(ms)
  {
    hide Segments, TurnAt, Sent, EverSkill, Indexed, LastCaller, LastSegment;
    turns := [];
    var index: map<string, (nat, nat)> := map[];
    var skillIds: set<string> := {};
    var pending: Option<string> := None;
    NothingIndexed(ms);
    for n := 0 to |ms|
      invariant turns == TurnsAt(ms, n, n)
      invariant Indexed(ms, n, index)
      invariant forall c :: c in skillIds <==> EverSkill(ms, n, c)
      invariant pending == Awaited(ms, n)
    {
      var m := ms[n];
      SkillsSoFar(ms, n, n + 1);
      if m.Assistant? {
        var turn := BuildAssistantTurn(m);
        ghost var before := index;
        index, skillIds := EnterSegments(turn.segments, |turns|, index, skillIds);
        EnteredIsIndexed(ms, n, before, index);
        AssistantStep(ms, n, turn);
        turns, pending := turns + [turn], None;
      } else {
        IndexStays(ms, n, index);
        if m.Human? && pending.Some? {
          FoldStep(ms, n, index);
          turns := SetResult(turns, index, pending.value, UserText(m.content));
          pending := None;
        } else if m.Human? {
          UserStep(ms, n);
          turns := turns + [UserTurn(m)];
        } else if m.Tool? {
          ToolStep(ms, n, index);
          if m.callId in index {
            turns := SetResult(turns, index, m.callId, ToolText(m.content));
          }
          pending := if m.callId in index && m.callId in skillIds then Some(m.callId) else None;
        } else {
          IgnoredStep(ms, n);
        }
      }
    }
  }

  lemma NothingIndexed(ms: seq<Message>)
    ensures Indexed(ms, 0, map[]) && forall c :: !EverSkill(ms, 0, c)
  {
    forall c ensures IndexedAt(ms, 0, map[], c) {
    }
  }

  lemma SkillsSoFar(ms: seq<Message>, n: nat, next: nat)
    requires next == n + 1 <= |ms|
    ensures forall c :: EverSkill(ms, next, c) <==> EverSkill(ms, n, c) || (c != "" && CallsSkill(ms[n], c))
    ensures forall c :: ms[n].Assistant? ==>
              (CallsSkill(ms[n], c) <==> exists s | 0 <= s < |Segments(ms[n])| :: IsSkill(Segments(ms[n])[s], c))
  {
    hide Segments, IsSkill;
  }

  lemma AssistantStep(ms: seq<Message>, n: nat, turn: Turn)
    requires n < |ms| && ms[n].Assistant? && turn == Turn(ms[n].id, AssistantRole, Segments(ms[n]))
    ensures TurnsAt(ms, n + 1, n + 1) == TurnsAt(ms, n, n) + [turn]
    ensures Awaited(ms, n + 1).None?
  {
    hide Segments;
    NothingSent(ms, n, n);
    NoResultsYet(ms[n]);
    assert TurnAt(ms, n, n + 1).segments == turn.segments;
  }

  lemma {:induction false} CallsHaveNoResult(segments: seq<Segment>, calls: seq<Call>, n: nat)
    requires n <= |calls| && forall s | s in segments :: s.CallSegment? ==> s.result.None?
    ensures forall s | s in WithRest(segments, calls, n) :: s.CallSegment? ==> s.result.None?
  {
    hide HasCall;
    if n > 0 {
      CallsHaveNoResult(segments, calls, n - 1);
    }
  }

  lemma {:induction false} BlocksHaveNoResult(blocks: seq<Block>, calls: seq<Call>, n: nat)
    requires n <= |blocks|
    ensures forall s | s in BlockSegments(blocks, calls, n) :: s.CallSegment? ==> s.result.None?
  {
    hide Resolve;
    if n > 0 {
      BlocksHaveNoResult(blocks, calls, n - 1);
    }
  }

  /** A new call has no result. */
  lemma NoResultsYet(m: Message)
    requires m.Assistant?
    ensures forall s | s in Segments(m) :: s.CallSegment? ==> s.result.None?
  {
    hide Strip;
    if m.content.Blocks? {
      BlocksHaveNoResult(m.content.blocks, m.calls, |m.content.blocks|);
      CallsHaveNoResult(BlockSegments(m.content.blocks, m.calls, |m.content.blocks|), m.calls, |m.calls|);
    }
  }

  lemma FoldStep(ms: seq<Message>, n: nat, index: map<string, (nat, nat)>)
    requires n < |ms| && ms[n].Human? && Awaited(ms, n).Some? && Indexed(ms, n, index)
    ensures var c := Awaited(ms, n).value;
            && c in index && Points(TurnsAt(ms, n, n), index[c], c)
            && TurnsAt(ms, n + 1, n + 1) == WithResult(TurnsAt(ms, n, n), index[c], c, UserText(ms[n].content))
    ensures Awaited(ms, n + 1).None?
  {
    hide Segments;
    var c := Awaited(ms, n).value;
    AwaitedIsKnown(ms, n);
    assert IndexedAt(ms, n, index, c);
    IndexPoints(ms, n, index, c);
    TurnsAfterSent(ms, n, n, c, UserText(ms[n].content), index[c]);
  }

  lemma UserStep(ms: seq<Message>, n: nat)
    requires n < |ms| && ms[n].Human? && Awaited(ms, n).None?
    ensures TurnsAt(ms, n + 1, n + 1) == TurnsAt(ms, n, n) + [UserTurn(ms[n])]
    ensures Awaited(ms, n + 1).None?
  {
    hide Segments;
    NothingSent(ms, n, n);
  }

  lemma ToolStep(ms: seq<Message>, n: nat, index: map<string, (nat, nat)>)
    requires n < |ms| && ms[n].Tool? && Indexed(ms, n, index)
    ensures var c := ms[n].callId;
            && (c in index ==> Points(TurnsAt(ms, n, n), index[c], c))
            && TurnsAt(ms, n + 1, n + 1) ==
                 (if c in index then WithResult(TurnsAt(ms, n, n), index[c], c, ToolText(ms[n].content))
                  else TurnsAt(ms, n, n))
            && Awaited(ms, n + 1) == if c in index && EverSkill(ms, n, c) then Some(c) else None
  {
    hide Segments, EverSkill;
    var c := ms[n].callId;
    assert IndexedAt(ms, n, index, c);
    if c in index {
      IndexPoints(ms, n, index, c);
      TurnsAfterSent(ms, n, n, c, ToolText(ms[n].content), index[c]);
    } else {
      NothingSent(ms, n, n);
    }
  }

  lemma IgnoredStep(ms: seq<Message>, n: nat)
    requires n < |ms| && ms[n].Ignored?
    ensures TurnsAt(ms, n + 1, n + 1) == TurnsAt(ms, n, n) && Awaited(ms, n + 1) == Awaited(ms, n)
  {
    hide Segments;
    NothingSent(ms, n, n);
  }

  // ---------------------------------------------------------------- what is shown of a message

  /** A person's text is the text blocks run together; all other blocks are left out. */
  lemma UserTextMeans(text: string, a: seq<Block>, b: Block, c: seq<Block>)
    ensures UserText(Plain(text)) == text && UserText(Blocks([])) == ""
    ensures UserText(Blocks(a + [b] + c)) ==
            UserText(Blocks(a)) + (if b.TextBlock? then b.text else "") + UserText(Blocks(c))
  {
    hide JoinedText;
    assert JoinedText([]) == "" && JoinedText([b]) == if b.TextBlock? then b.text else "" by { OneJoined(b); }
    JoinedConcat(a + [b], c);
    JoinedConcat(a, [b]);
  }

  lemma OneJoined(b: Block)
    ensures JoinedText([]) == "" && JoinedText([b]) == if b.TextBlock? then b.text else ""
  {
    assert [b][1..] == [];
  }

  lemma {:induction false} JoinedConcat(a: seq<Block>, b: seq<Block>)
    ensures JoinedText(a + b) == JoinedText(a) + JoinedText(b)
  {
    if a == [] {
      assert a + b == b;
    } else {
      assert (a + b)[1..] == a[1..] + b;
      JoinedConcat(a[1..], b);
    }
  }

  /** A tool's text has one line for each block, empty for a call. */
  lemma ToolTextMeans(text: string, a: seq<Block>, b: Block, c: seq<Block>)
    ensures ToolText(Plain(text)) == text
    ensures ToolText(Blocks([b])) == if b.CallBlock? then "" else b.text
    ensures a != [] && c != [] ==> ToolText(Blocks(a + c)) == ToolText(Blocks(a)) + "\n" + ToolText(Blocks(c))
  {
    if a != [] && c != [] {
      JoinAppend(Pieces(a), Pieces(c), "\n");
      assert Pieces(a + c) == Pieces(a) + Pieces(c);
    }
  }

  /** A block that has something to show: text, a thought, or a call. */
  predicate Shows(b: Block) {
    (b.TextBlock? && b.text != "") || (b.ThinkingBlock? && b.thought != "") || b.CallBlock?
  }

  /** How many of the first n blocks do. */
  function ShownCount(blocks: seq<Block>, n: nat): nat
    requires n <= |blocks|
  {
    if n == 0 then 0 else ShownCount(blocks, n - 1) + if Shows(blocks[n - 1]) then 1 else 0
  }

  /** What a block is shown as; a call takes its name and arguments from the last of the message's calls with its
      id, if it has an id and there is one. */
  ghost predicate ShownAs(b: Block, calls: seq<Call>, g: Segment) {
    match b
    case TextBlock(text) => g == TextSegment(text)
    case ThinkingBlock(thought, _) => g == ThinkingSegment(thought)
    case CallBlock(call) =>
      && g.CallSegment? && g.id == call.id && g.result == None
      && (call.id == "" || (forall j | 0 <= j < |calls| :: calls[j].id != call.id) ==>
            g.name == call.name && g.args == call.args)
      && forall j | 0 <= j < |calls| && call.id != "" && calls[j].id == call.id
                    && (forall k | j < k < |calls| :: calls[k].id != call.id) ::
           g.name == calls[j].name && g.args == calls[j].args
    case OtherBlock(_) => false
  }

  lemma {:induction false} LastCallMeans(calls: seq<Call>, n: nat, id: string)
    requires n <= |calls|
    ensures LastCall(calls, n, id).None? <==> forall j | 0 <= j < n :: calls[j].id != id
    ensures forall j | 0 <= j < n && calls[j].id == id && (forall k | j < k < n :: calls[k].id != id) ::
              LastCall(calls, n, id) == Some(calls[j])
    ensures LastCall(calls, n, id).Some? ==> LastCall(calls, n, id).value.id == id
  {
    if n > 0 {
      LastCallMeans(calls, n - 1, id);
    }
  }

  lemma BlockShownAs(b: Block, calls: seq<Call>)
    ensures Shows(b) ==> |BlockSegment(b, calls)| == 1 && ShownAs(b, calls, BlockSegment(b, calls)[0])
    ensures !Shows(b) ==> BlockSegment(b, calls) == []
  {
    if b.CallBlock? {
      LastCallMeans(calls, |calls|, b.call.id);
    }
  }

  lemma {:induction false} BlocksShown(blocks: seq<Block>, calls: seq<Call>, n: nat, i: nat)
    requires i < n <= |blocks|
    ensures |BlockSegments(blocks, calls, i)| == ShownCount(blocks, i)
    ensures |BlockSegments(blocks, calls, n)| == ShownCount(blocks, n)
    ensures Shows(blocks[i]) ==> ShownCount(blocks, i) < ShownCount(blocks, n)
                                 && ShownAs(blocks[i], calls, BlockSegments(blocks, calls, n)[ShownCount(blocks, i)])
  {
    hide Shows, ShownAs, BlockSegment;
    BlockShownAs(blocks[n - 1], calls);
    if i < n - 1 {
      BlocksShown(blocks, calls, n - 1, i);
    } else if i > 0 {
      BlocksShown(blocks, calls, i, i - 1);
    }
  }

  lemma {:induction false} RestFollows(segments: seq<Segment>, calls: seq<Call>, n: nat)
    requires n <= |calls|
    ensures segments <= WithRest(segments, calls, n)
    ensures forall t | |segments| <= t < |WithRest(segments, calls, n)| ::
              IsOneOf(WithRest(segments, calls, n)[t], calls)
  {
    hide HasCall, IsOneOf;
    if n > 0 {
      RestFollows(segments, calls, n - 1);
      ShownIsOne(calls, n - 1);
    }
  }

  lemma ShownIsOne(calls: seq<Call>, j: nat)
    requires j < |calls|
    ensures IsOneOf(Shown(calls[j]), calls)
  {
    assert IsCall(Shown(calls[j]), calls[j]);
  }

  ghost predicate IsOneOf(g: Segment, calls: seq<Call>) {
    exists j | 0 <= j < |calls| :: IsCall(g, calls[j])
  }

  predicate IsCall(g: Segment, call: Call) {
    g == CallSegment(call.id, call.name, call.args, None)
  }

  function Lead(m: Message): nat
    requires m.Assistant?
  {
    if m.thought != "" then 1 else 0
  }

  /** The i-th block of an assistant message, if it has something to show, comes after the reasoning and what the
      blocks before it show; after all blocks come only calls of the message. */
  lemma BlockIsShown(m: Message, i: nat)
    requires m.Assistant? && m.content.Blocks? && i < |m.content.blocks|
    ensures m.thought != "" ==> Segments(m) != [] && Segments(m)[0] == ThinkingSegment(m.thought)
    ensures var blocks := m.content.blocks;
            && Lead(m) + ShownCount(blocks, |blocks|) <= |Segments(m)|
            && (Shows(blocks[i]) ==>
                  && Lead(m) + ShownCount(blocks, i) < |Segments(m)|
                  && ShownAs(blocks[i], m.calls, Segments(m)[Lead(m) + ShownCount(blocks, i)]))
            && forall t | Lead(m) + ShownCount(blocks, |blocks|) <= t < |Segments(m)| ::
                 IsOneOf(Segments(m)[t], m.calls)
  {
    hide Shows, ShownAs, BlockSegments, WithRest, ShownCount, IsOneOf, Strip;
    var blocks := m.content.blocks;
    var shown := BlockSegments(blocks, m.calls, |blocks|);
    BlocksShown(blocks, m.calls, |blocks|, i);
    RestFollows(shown, m.calls, |m.calls|);
    var rest := WithRest(shown, m.calls, |m.calls|);
    assert forall t | Lead(m) <= t < |Segments(m)| :: Segments(m)[t] == rest[t - Lead(m)];
  }

  /** Of a plain message the text is shown unless it is blank, then every call in order. */
  lemma PlainIsShown(m: Message)
    requires m.Assistant? && m.content.Plain?
    ensures m.thought != "" ==> Segments(m) != [] && Segments(m)[0] == ThinkingSegment(m.thought)
    ensures var text := if AllSpace(m.content.text) then 0 else 1;
            && |Segments(m)| == Lead(m) + text + |m.calls|
            && (text == 1 ==> Segments(m)[Lead(m)] == TextSegment(m.content.text))
            && forall j | 0 <= j < |m.calls| :: IsCall(Segments(m)[Lead(m) + text + j], m.calls[j])
  {
    BlankIsStripped(m.content.text);
    hide Strip, AllSpace;
  }

  /** A person's message is a turn with its text, unless it is a skill's body. */
  lemma PersonIsShown(ms: seq<Message>, k: nat)
    requires k < |ms| && ms[k].Human? && Awaited(ms, k).None?
    ensures Position(ms, k) < |Transcript(ms)|
    ensures Transcript(ms)[Position(ms, k)] == Turn(ms[k].id, User, [TextSegment(UserText(ms[k].content))])
  {
    hide UserText;
    TurnIsAtPosition(ms, k, |ms|, |ms|);
  }

  /** A skill's body is awaited exactly after a tool result, with nothing but ignored messages since, whose call was
      to the skill tool in some message before it. */
  lemma AwaitedMeans(ms: seq<Message>, n: nat, c: string)
    requires n <= |ms|
    ensures Awaited(ms, n) == Some(c) <==>
            c != "" && exists j | 0 <= j < n ::
              && ms[j].Tool? && ms[j].callId == c && (forall k | j < k < n :: ms[k].Ignored?)
              && exists a | 0 <= a < j :: ms[a].Assistant? && CallSkill(Segments(ms[a]), c)
  {
    hide Segments;
    SignificantMeans(ms, n);
    var j := LastSignificant(ms, n);
    if j >= 0 && ms[j].Tool? {
      SkillIsCall(ms, j, ms[j].callId);
    }
  }

  ghost predicate CallSkill(segments: seq<Segment>, c: string) {
    exists s | 0 <= s < |segments| :: segments[s].CallSegment? && segments[s].id == c && segments[s].name == "skill"
  }

  lemma {:induction false} SignificantMeans(ms: seq<Message>, n: nat)
    requires n <= |ms|
    ensures var j := LastSignificant(ms, n);
            (j >= 0 ==> !ms[j].Ignored?) && forall k | j < k < n :: ms[k].Ignored?
  {
    if n > 0 {
      SignificantMeans(ms, n - 1);
    }
  }

  lemma SkillIsCall(ms: seq<Message>, n: nat, c: string)
    requires n <= |ms|
    ensures EverSkill(ms, n, c) <==>
            c != "" && exists a | 0 <= a < n :: ms[a].Assistant? && CallSkill(Segments(ms[a]), c)
    ensures EverSkill(ms, n, c) ==> LastCaller(ms, n, c) >= 0
  {
    hide Segments;
    forall a | 0 <= a < n ensures CallsSkill(ms[a], c) <==> ms[a].Assistant? && CallSkill(Segments(ms[a]), c) {
      if ms[a].Assistant? && CallSkill(Segments(ms[a]), c) {
        var s :| 0 <= s < |Segments(ms[a])| && Segments(ms[a])[s].CallSegment? && Segments(ms[a])[s].id == c
          && Segments(ms[a])[s].name == "skill";
        assert IsSkill(Segments(ms[a])[s], c);
      }
    }
    if EverSkill(ms, n, c) {
      var a :| 0 <= a < n && CallsSkill(ms[a], c);
      assert Calls(ms[a], c);
    }
  }

  // ---------------------------------------------------------------- what a reader can rely on

  lemma {:induction false} RestIsShown(segments: seq<Segment>, calls: seq<Call>, n: nat, i: nat)
    requires i < n <= |calls| && calls[i].id != ""
    ensures HasCall(WithRest(segments, calls, n), calls[i].id)
  {
    hide HasCall;
    var before := WithRest(segments, calls, n - 1);
    if i < n - 1 {
      RestIsShown(segments, calls, n - 1, i);
    }
    HasCallGrows(before, Shown(calls[n - 1]));
  }

  /** No call with an id is dropped, whatever the content looks like. */
  lemma EveryCallIsShown(m: Message, i: nat)
    requires m.Assistant? && i < |m.calls| && m.calls[i].id != ""
    ensures Calls(m, m.calls[i].id)
  {
    hide Strip, WithRest, BlockSegments;
    var c := m.calls[i].id;
    if m.content.Blocks? {
      var rest := WithRest(BlockSegments(m.content.blocks, m.calls, |m.content.blocks|), m.calls, |m.calls|);
      RestIsShown(BlockSegments(m.content.blocks, m.calls, |m.content.blocks|), m.calls, |m.calls|, i);
      var lead := |Segments(m)| - |rest|;
      assert Is(Segments(m)[lead + LastSegment(rest, |rest|, c)], c);
    } else {
      var at := |Segments(m)| - |m.calls| + i;
      assert Is(Segments(m)[at], c);
    }
  }

  function WithoutResult(g: Segment): Segment {
    if g.CallSegment? then g.(result := None) else g
  }

  /** A turn without the results of its calls. */
  function Outline(t: Turn): Turn {
    t.(segments := seq(|t.segments|, s requires 0 <= s < |t.segments| => WithoutResult(t.segments[s])))
  }

  function Outlines(turns: seq<Turn>): seq<Turn> {
    seq(|turns|, i requires 0 <= i < |turns| => Outline(turns[i]))
  }

  lemma OutlinesAppend(turns: seq<Turn>, t: Turn)
    ensures Outlines(turns + [t]) == Outlines(turns) + [Outline(t)]
    ensures Outlines(turns + []) == Outlines(turns)
  {
    hide Outline;
    assert turns + [] == turns;
  }

  /** Searches through the first messages do not see what comes later. */
  lemma {:induction false} SearchIsLocal(ms: seq<Message>, more: seq<Message>, n: nat, c: string)
    requires n <= |ms|
    ensures LastCaller(ms + more, n, c) == LastCaller(ms, n, c)
    ensures LastSignificant(ms + more, n) == LastSignificant(ms, n)
    ensures EverSkill(ms + more, n, c) <==> EverSkill(ms, n, c)
  {
    hide Segments, Calls, CallsSkill;
    if n > 0 {
      SearchIsLocal(ms, more, n - 1, c);
      assert (ms + more)[n - 1] == ms[n - 1];
    }
    assert forall a | 0 <= a < n :: (ms + more)[a] == ms[a];
  }

  lemma EmitsIsLocal(ms: seq<Message>, more: seq<Message>, k: nat)
    requires k < |ms|
    ensures Emits(ms + more, k) <==> Emits(ms, k)
  {
    hide Segments, EverSkill, LastCaller, LastSignificant;
    SearchIsLocal(ms, more, k, "");
    var j := LastSignificant(ms, k);
    if j >= 0 && ms[j].Tool? {
      SearchIsLocal(ms, more, j, ms[j].callId);
    }
  }

  lemma OutlineIsLocal(ms: seq<Message>, more: seq<Message>, a: nat, n: nat, later: nat)
    requires a < |ms| && n <= |ms| && later <= |ms + more| && (ms[a].Human? || ms[a].Assistant?)
    ensures Outline(TurnAt(ms + more, a, later)) == Outline(TurnAt(ms, a, n))
  {
    hide Segments, ResultOf;
    assert (ms + more)[a] == ms[a];
  }

  lemma {:induction false} OutlinesAreLocal(ms: seq<Message>, more: seq<Message>, k: nat, n: nat, later: nat)
    requires k <= |ms| && n <= |ms| && later <= |ms + more|
    ensures Outlines(TurnsAt(ms + more, k, later)) == Outlines(TurnsAt(ms, k, n))
  {
    hide TurnAt, Outline;
    if k > 0 {
      OutlinesAreLocal(ms, more, k - 1, n, later);
      EmitsIsLocal(ms, more, k - 1);
      if Emits(ms, k - 1) {
        OutlineIsLocal(ms, more, k - 1, n, later);
      }
      var a, b := TurnsAt(ms + more, k - 1, later), TurnsAt(ms, k - 1, n);
      if Emits(ms, k - 1) {
        OutlinesAppend(a, TurnAt(ms + more, k - 1, later));
        OutlinesAppend(b, TurnAt(ms, k - 1, n));
      } else {
        assert a + [] == a && b + [] == b;
      }
    }
  }

  lemma {:induction false} EarlierTurnsStay(ms: seq<Message>, k: nat, n: nat)
    requires k <= n <= |ms|
    ensures TurnsAt(ms, k, |ms|) <= TurnsAt(ms, n, |ms|)
  {
    hide Emits, TurnAt;
    if k < n {
      EarlierTurnsStay(ms, k, n - 1);
    }
  }

  /** Appending messages never changes the role, id, order or text of what was already shown: only results
      may arrive. */
  lemma AppendingOnlyAddsResults(ms: seq<Message>, more: seq<Message>)
    ensures Outlines(Transcript(ms)) <= Outlines(Transcript(ms + more))
  {
    hide Emits, TurnAt, Outline;
    OutlinesAreLocal(ms, more, |ms|, |ms|, |ms + more|);
    EarlierTurnsStay(ms + more, |ms|, |ms + more|);
    var first, all := TurnsAt(ms + more, |ms|, |ms + more|), Transcript(ms + more);
    assert forall i | 0 <= i < |first| :: Outlines(first)[i] == Outlines(all)[i];
  }
}
