/** The history-to-messages merge of chatAnthropic (internal/ai/chat.go:85-112). */
module ChatMerge {

  datatype Call = Call(id: string, name: string, args: string)

  /** The role of a message of the history: "assistant", "tool", or anything else. */
  datatype Speaker = ByAssistant | ByTool | ByOther

  datatype ChatMessage = ChatMessage(role: Speaker, text: string, callId: string, calls: seq<Call>)

  datatype Role = User | Assistant

  datatype Block =
    | Text(text: string)
    | ToolUse(id: string, name: string, input: string)
    | ToolResult(callId: string, content: string)

  /** A block and who says it. */
  datatype Said = Said(role: Role, block: Block)

  datatype Message = Message(role: Role, content: seq<Block>)

  // ---- what the history says ----

  function Use(c: Call): Said { Said(Assistant, ToolUse(c.id, c.name, if c.args == "" then "{}" else c.args)) }

  function Uses(calls: seq<Call>): seq<Said> {
    if calls == [] then [] else Uses(calls[..|calls| - 1]) + [Use(calls[|calls| - 1])]
  }

  function SaidIn(m: ChatMessage): seq<Said> {
    match m.role
    case ByAssistant => (if m.text != "" then [Said(Assistant, Text(m.text))] else []) + Uses(m.calls)
    case ByTool => [Said(User, ToolResult(m.callId, m.text))]
    case ByOther => [Said(User, Text(m.text))]
  }

  function AllSaid(history: seq<ChatMessage>): seq<Said> {
    if history == [] then [] else AllSaid(history[..|history| - 1]) + SaidIn(history[|history| - 1])
  }

  ghost predicate Spoken(m: ChatMessage, s: Said) {
    match s.block
    case Text(text) => m.text == text &&
      if s.role.Assistant? then m.role.ByAssistant? && text != "" else m.role.ByOther?
    case ToolUse(id, name, input) => s.role.Assistant? && m.role.ByAssistant? &&
      exists k :: 0 <= k < |m.calls| && CallSays(m.calls[k], id, name, input)
    case ToolResult(callId, content) => s.role.User? && m.role.ByTool? && m.callId == callId && m.text == content
  }

  /** A call without arguments has an empty object. */
  predicate CallSays(c: Call, id: string, name: string, input: string) {
    c.id == id && c.name == name && (if |c.args| > 0 then c.args == input else input == "{}")
  }

  lemma {:induction false} UsesAre(calls: seq<Call>, s: Said)
    ensures s in Uses(calls) <==>
      (s.role.Assistant? && s.block.ToolUse? &&
      exists k :: 0 <= k < |calls| && CallSays(calls[k], s.block.id, s.block.name, s.block.input))
  {
    if calls != [] {
      var n := |calls| - 1;
      UsesAre(calls[..n], s);
      if s.block.ToolUse? {
        var b := s.block;
        if k :| 0 <= k < |calls| && CallSays(calls[k], b.id, b.name, b.input) {
          assert k < n ==> calls[..n][k] == calls[k];
        }
        if k :| 0 <= k < n && CallSays(calls[..n][k], b.id, b.name, b.input) {
          assert CallSays(calls[k], b.id, b.name, b.input);
        }
      }
    }
  }

  /** Who says what: texts and calls of the assistant are said by the assistant, results of tools
      and all other texts by the user, and nothing else is said. */
  lemma {:induction false} WhoSaysWhat(history: seq<ChatMessage>, s: Said)
    ensures s in AllSaid(history) <==> exists i :: 0 <= i < |history| && Spoken(history[i], s)
  {
    if history != [] {
      var n := |history| - 1;
      WhoSaysWhat(history[..n], s);
      SaysWhat(history[n], s);
      if i :| 0 <= i < |history| && Spoken(history[i], s) {
        assert i < n ==> history[..n][i] == history[i];
      }
      if i :| 0 <= i < n && Spoken(history[..n][i], s) {
        assert Spoken(history[i], s);
      }
    }
  }

  lemma SaysWhat(m: ChatMessage, s: Said)
    ensures s in SaidIn(m) <==> Spoken(m, s)
  {
    UsesAre(m.calls, s);
  }

  // ---- what a list of messages says ----

  function Tagged(role: Role, blocks: seq<Block>): seq<Said> {
    if blocks == [] then [] else [Said(role, blocks[0])] + Tagged(role, blocks[1..])
  }

  function Flat(ms: seq<Message>): seq<Said> {
    if ms == [] then [] else Flat(ms[..|ms| - 1]) + Tagged(ms[|ms| - 1].role, ms[|ms| - 1].content)
  }

  predicate Alternates(ms: seq<Message>) {
    && (forall i :: 0 <= i < |ms| ==> ms[i].content != [])
    && (forall i :: 0 <= i < |ms| - 1 ==> ms[i].role != ms[i + 1].role)
  }

  lemma {:induction false} TaggedNext(role: Role, blocks: seq<Block>, b: Block)
    ensures Tagged(role, blocks + [b]) == Tagged(role, blocks) + [Said(role, b)]
  {
    if blocks == [] {
      assert [b][1..] == [];
    } else {
      assert (blocks + [b])[1..] == blocks[1..] + [b];
      TaggedNext(role, blocks[1..], b);
    }
  }

  function Added(ms: seq<Message>, s: Said): seq<Message> {
    if ms != [] && ms[|ms| - 1].role == s.role then
      ms[..|ms| - 1] + [ms[|ms| - 1].(content := ms[|ms| - 1].content + [s.block])]
    else ms + [Message(s.role, [s.block])]
  }

  /** One block more: still alternating, and it is said last. */
  lemma AddedSays(ms: seq<Message>, s: Said)
    requires Alternates(ms)
    ensures Alternates(Added(ms, s)) && Flat(Added(ms, s)) == Flat(ms) + [s]
  {
    var n := |ms|;
    var next := Added(ms, s);
    if ms != [] && ms[n - 1].role == s.role {
      assert next[..n - 1] == ms[..n - 1];
      TaggedNext(s.role, ms[n - 1].content, s.block);
      assert Flat(ms[..n - 1]) + (Tagged(s.role, ms[n - 1].content) + [s]) ==
        Flat(ms[..n - 1]) + Tagged(s.role, ms[n - 1].content) + [s];
    } else {
      assert next[..n] == ms;
      assert [s.block][1..] == [];
      assert Tagged(s.role, [s.block]) == [s];
    }
  }

  class Merger {
    var messages: seq<Message>

    /** The closure add. */
    method Add(s: Said)
      requires Alternates(messages)
      modifies this
      ensures Alternates(messages) && Flat(messages) == Flat(old(messages)) + [s]
      ensures messages == Added(old(messages), s)
    {
      AddedSays(messages, s);
      var n := |messages|;
      if n > 0 && messages[n - 1].role == s.role {
        messages := messages[..n - 1] + [messages[n - 1].(content := messages[n - 1].content + [s.block])];
        return;
      }
      messages := messages + [Message(s.role, [s.block])];
    }

    method AddCalls(calls: seq<Call>)
      requires Alternates(messages)
      modifies this
      ensures Alternates(messages) && Flat(messages) == Flat(old(messages)) + Uses(calls)
    {
      ghost var before := Flat(messages);
      var i := 0;
      while i < |calls|
        invariant 0 <= i <= |calls| && Alternates(messages) && Flat(messages) == before + Uses(calls[..i])
      {
        UsesNext(before, calls, i);
        Add(Use(calls[i]));
        i := i + 1;
      }
      assert calls[..i] == calls;
    }

    method AddAssistant(m: ChatMessage)
      requires Alternates(messages) && m.role.ByAssistant?
      modifies this
      ensures Alternates(messages) && Flat(messages) == Flat(old(messages)) + SaidIn(m)
    {
      ghost var before := Flat(messages);
      if m.text != "" {
        Add(Said(Assistant, Text(m.text)));
      }
      AddCalls(m.calls);
      SaidByAssistant(before, m);
    }

    method AddMessage(m: ChatMessage)
      requires Alternates(messages)
      modifies this
      ensures Alternates(messages) && Flat(messages) == Flat(old(messages)) + SaidIn(m)
    {
      match m.role
      case ByAssistant =>
        AddAssistant(m);
      case ByTool =>
        Add(Said(User, ToolResult(m.callId, m.text)));
      case ByOther =>
        Add(Said(User, Text(m.text)));
    }
  }

  lemma SaidByAssistant(before: seq<Said>, m: ChatMessage)
    requires m.role.ByAssistant?
    ensures (if m.text != "" then before + [Said(Assistant, Text(m.text))] else before) + Uses(m.calls)
      == before + SaidIn(m)
  {
    var spoken := if m.text != "" then [Said(Assistant, Text(m.text))] else [];
    assert before + spoken + Uses(m.calls) == before + (spoken + Uses(m.calls));
    assert before + [] == before;
  }

  lemma UsesNext(before: seq<Said>, calls: seq<Call>, i: nat)
    requires i < |calls|
    ensures before + Uses(calls[..i + 1]) == before + Uses(calls[..i]) + [Use(calls[i])]
  {
    assert calls[..i + 1][..i] == calls[..i];
  }

  /** The messages for a history: roles alternate, no message is empty, and together they
      say exactly what the history says, in order. */
  method Merge(history: seq<ChatMessage>) returns (ms: seq<Message>)
    ensures Alternates(ms) && Flat(ms) == AllSaid(history)
  {
    var m := new Merger;
    m.messages := [];
    var i := 0;
    while i < |history|
      invariant 0 <= i <= |history| && Alternates(m.messages) && Flat(m.messages) == AllSaid(history[..i])
    {
      assert history[..i + 1][..i] == history[..i];
      m.AddMessage(history[i]);
      i := i + 1;
    }
    assert history[..i] == history;
    ms := m.messages;
  }

  /** The calls of add for a list of blocks, from the messages there are. */
  function AddedAll(ms: seq<Message>, said: seq<Said>): seq<Message> {
    if said == [] then ms else Added(AddedAll(ms, said[..|said| - 1]), said[|said| - 1])
  }

  lemma {:induction false} AddedAllConcat(ms: seq<Message>, a: seq<Said>, b: seq<Said>)
    ensures AddedAll(ms, a + b) == AddedAll(AddedAll(ms, a), b)
  {
    if b == [] {
      assert a + b == a;
    } else {
      assert (a + b)[..|a + b| - 1] == a + b[..|b| - 1];
      AddedAllConcat(ms, a, b[..|b| - 1]);
    }
  }

  /** The blocks of one message make that message. */
  lemma {:induction false} OneMessage(ms: seq<Message>, role: Role, blocks: seq<Block>)
    requires blocks != [] && (ms != [] ==> ms[|ms| - 1].role != role)
    ensures AddedAll(ms, Tagged(role, blocks)) == ms + [Message(role, blocks)]
  {
    var n := |blocks| - 1;
    var rest, b := blocks[..n], blocks[n];
    TaggedNext(role, rest, b);
    assert blocks == rest + [b];
    AddedAllConcat(ms, Tagged(role, rest), [Said(role, b)]);
    if n > 0 {
      OneMessage(ms, role, rest);
      assert (ms + [Message(role, rest)])[..|ms|] == ms;
    }
  }

  /** An alternating list is what add makes of what it says. */
  lemma {:induction false} MergeOfSaid(ms: seq<Message>)
    requires Alternates(ms)
    ensures AddedAll([], Flat(ms)) == ms
    decreases |ms|
  {
    if ms != [] {
      var rest, m := ms[..|ms| - 1], ms[|ms| - 1];
      LastAlternates(ms, rest, m);
      MergeOfSaid(rest);
      NextMessage(rest, m);
    }
  }

  lemma LastAlternates(ms: seq<Message>, rest: seq<Message>, m: Message)
    requires Alternates(ms) && ms != [] && rest == ms[..|ms| - 1] && m == ms[|ms| - 1]
    ensures ms == rest + [m] && Alternates(rest)
    ensures m.content != [] && (rest != [] ==> rest[|rest| - 1].role != m.role)
  {
    if |ms| > 1 {
      assert ms[|ms| - 2].role != ms[|ms| - 1].role;
    }
  }

  lemma NextMessage(ms: seq<Message>, m: Message)
    requires AddedAll([], Flat(ms)) == ms && m.content != [] && (ms != [] ==> ms[|ms| - 1].role != m.role)
    ensures AddedAll([], Flat(ms + [m])) == ms + [m]
  {
    LastMessage(ms, m);
    FlatNext(ms, m);
  }

  lemma FlatNext(ms: seq<Message>, m: Message)
    ensures Flat(ms + [m]) == Flat(ms) + Tagged(m.role, m.content)
  {
    assert (ms + [m])[..|ms|] == ms;
  }

  lemma LastMessage(ms: seq<Message>, m: Message)
    requires AddedAll([], Flat(ms)) == ms && m.content != [] && (ms != [] ==> ms[|ms| - 1].role != m.role)
    ensures AddedAll([], Flat(ms) + Tagged(m.role, m.content)) == ms + [m]
  {
    AddedAllConcat([], Flat(ms), Tagged(m.role, m.content));
    OneMessage(ms, m.role, m.content);
  }

  /** There is only one such list: what the messages must be is settled by what they say. */
  lemma OneMerge(ms: seq<Message>, ns: seq<Message>)
    requires Alternates(ms) && Alternates(ns) && Flat(ms) == Flat(ns)
    ensures ms == ns
  {
    MergeOfSaid(ms);
    MergeOfSaid(ns);
  }
}
