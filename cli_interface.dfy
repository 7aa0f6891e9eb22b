/**
  The command-line loop: each input line is either ignored (blank), a command
  (/exit, /help, /clear, /history, matched case-insensitively) or a user
  message. A user message is stored, the stored records are handed to the
  text generator, and then either its reply is stored or, when generation
  fails, the pending user record is rolled back.

  The generator is a parameter: given the records it is shown it yields
  `Success(reply)` (the decoded text) or `Failure`.
 */
module Cli {
  import opened Text
  import opened Memory

  datatype Generation = Success(reply: string) | Failure

  /** What one input line led to, standing for what the loop prints or does. */
  datatype Outcome =
    | Skipped
    | Exited
    | HelpShown
    | Cleared
    | HistoryShown(history: Option<string>)
    | Replied(reply: string)
    | Failed

  /** Stored instead of a generated reply that is empty after trimming. */
  const Fallback: string := "I'm not sure what to say."

  /** The four commands the loop understands. */
  datatype Cmd = Exit | Help | Clear | ShowHistory

  /** How a command is typed, in lower case. */
  function CommandName(c: Cmd): string {
    match c
    case Exit => "/exit"
    case Help => "/help"
    case Clear => "/clear"
    case ShowHistory => "/history"
  }

  /** No two commands are typed alike. */
  lemma CommandNamesDistinct()
    ensures forall c: Cmd, d: Cmd :: CommandName(c) == CommandName(d) ==> c == d
  {
    assert CommandName(Exit)[1] == 'e' && CommandName(Help)[1] == 'h';
    assert CommandName(Clear)[1] == 'c' && CommandName(ShowHistory)[1] == 'h';
    assert CommandName(Help)[2] == 'e' && CommandName(ShowHistory)[2] == 'i';
  }

  /** How the loop reads an input line. */
  datatype Input = Blank | Command(cmd: Cmd) | Message(text: string)

  /**
    The line is trimmed; nothing left means a blank line; otherwise its
    lower-cased form is compared with the four commands, and anything else
    is a user message carrying the trimmed text.
   */
  function Classify(line: string): (input: Input)
    ensures input.Blank? <==> AllSpace(line)
    ensures input.Command? ==> ToLower(Strip(line)) == CommandName(input.cmd)
    ensures input.Message? ==> && input.text == Strip(line) && input.text != []
                               && forall c: Cmd :: ToLower(input.text) != CommandName(c)
  {
    var text := Strip(line);
    if text == [] then Blank
    else
      var lower := ToLower(text);
      if lower == "/exit" then Command(Exit)
      else if lower == "/help" then Command(Help)
      else if lower == "/clear" then Command(Clear)
      else if lower == "/history" then Command(ShowHistory)
      else Message(text)
  }

  /**
    The reply the bot gives for decoded generator output: the output trimmed,
    or the fallback when that is empty. Never empty, never padded.
   */
  function BotReply(decoded: string): (reply: string)
    ensures reply != [] && Stripped(reply)
    ensures Strip(decoded) != [] ==> reply == Strip(decoded)
    ensures Strip(decoded) == [] ==> reply == Fallback
  {
    var reply := Strip(decoded);
    if reply == [] then Fallback else reply
  }

  /**
    The rollback after a failed generation: the last record is removed when,
    and only when, it is a user record; otherwise nothing changes.
   */
  function RollBack(window: seq<Turn>): (r: seq<Turn>)
    ensures |window| - 1 <= |r| <= |window|
    ensures r <= window
    ensures |r| < |window| <==> window != [] && window[|window| - 1].role == User
  {
    if window != [] && window[|window| - 1].role == User then window[..|window| - 1] else window
  }

  /** The records the generator is shown for the message `text`: the memory with it appended. */
  function Pending(window: seq<Turn>, capacity: nat, text: string): seq<Turn>
    requires |window| <= capacity
  {
    WindowAppend(window, capacity, Turn(User, text))
  }

  /**
    One exchange for the message `text`, which the loop has already trimmed.
    The records are stored under the labels "user" and "bot", which normalise
    to the user and the assistant (lemma RoleNames); the trimming the memory
    applies on storing leaves the trimmed message and reply as they are.
   */
  function Exchange(window: seq<Turn>, capacity: nat, text: string, engine: seq<Turn> -> Generation)
    : (res: (Outcome, seq<Turn>))
    requires |window| <= capacity
    ensures |res.1| <= capacity
  {
    var pending := Pending(window, capacity, text);
    match engine(pending)
    case Success(decoded) =>
      var reply := BotReply(decoded);
      (Replied(reply), WindowAppend(pending, capacity, Turn(Assistant, reply)))
    case Failure =>
      (Failed, RollBack(pending))
  }

  /** One iteration of the loop for a classified line: what it leads to, and the memory afterwards. */
  function Transition(window: seq<Turn>, capacity: nat, input: Input, engine: seq<Turn> -> Generation)
    : (res: (Outcome, seq<Turn>))
    requires |window| <= capacity
    ensures |res.1| <= capacity
  {
    match input
    case Blank => (Skipped, window)
    case Command(Exit) => (Exited, window)
    case Command(Help) => (HelpShown, window)
    case Command(Clear) => (Cleared, [])
    case Command(ShowHistory) => (HistoryShown(History(window)), window)
    case Message(text) => Exchange(window, capacity, text, engine)
  }

  /** Storing trimmed `content` under the label `name` records it, unchanged, for `role`. */
  lemma StoredAs(name: string, content: string, role: Role)
    requires name == "user" || name == "bot"
    requires role == (if name == "bot" then Assistant else User)
    requires Stripped(content)
    ensures Turn(NormalizeRole(name), Strip(content)) == Turn(role, content)
  {
    RoleNames();
    StripUnique(content, [], content, []);
  }

  lemma RoleNames()
    ensures NormalizeRole("user") == User && NormalizeRole("bot") == Assistant
  {
    NormalizeRoleIsBot("user");
    NormalizeRoleIsBot("bot");
  }

  /**
    The body of the `try` block: store the user message, show the generator
    the message list, then store its reply or roll the user message back.
   */
  method Converse(memory: ChatMemory, userInput: string, engine: seq<Turn> -> Generation) returns (outcome: Outcome)
    requires memory.Valid() && Stripped(userInput)
    modifies memory
    ensures memory.Valid()
    ensures outcome == Exchange(old(memory.buffer), memory.Capacity(), userInput, engine).0
    ensures memory.buffer == Exchange(old(memory.buffer), memory.Capacity(), userInput, engine).1
  {
    ghost var window, capacity := memory.buffer, memory.Capacity();
    ghost var pending := Pending(window, capacity, userInput);
    StoredAs("user", userInput, User);
    memory.AddMessage("user", userInput);
    var messages := memory.GetMessageList();
    assert messages == pending;
    match engine(messages)
    case Success(decoded) =>
      var botReply := BotReply(decoded);
      StoredAs("bot", botReply, Assistant);
      memory.AddMessage("bot", botReply);
      outcome := Replied(botReply);
    case Failure =>
      if memory.buffer != [] && memory.buffer[|memory.buffer| - 1].role == User {
        memory.buffer := memory.buffer[..|memory.buffer| - 1];
      }
      assert memory.buffer == RollBack(pending);
      outcome := Failed;
  }

  /**
    One iteration of the loop, run against `memory`: the line is read as
    Classify reads it, then skipped, obeyed as a command, or answered.
   */
  method Step(memory: ChatMemory, line: string, engine: seq<Turn> -> Generation) returns (outcome: Outcome)
    requires memory.Valid()
    modifies memory
    ensures memory.Valid()
    ensures outcome == Transition(old(memory.buffer), memory.Capacity(), Classify(line), engine).0
    ensures memory.buffer == Transition(old(memory.buffer), memory.Capacity(), Classify(line), engine).1
  {
    match Classify(line)
    case Blank =>
      outcome := Skipped;
    case Command(Exit) =>
      outcome := Exited;
    case Command(Help) =>
      outcome := HelpShown;
    case Command(Clear) =>
      memory.Clear();
      outcome := Cleared;
    case Command(ShowHistory) =>
      var history := memory.GetHistory();
      outcome := HistoryShown(history);
    case Message(userInput) =>
      outcome := Converse(memory, userInput, engine);
  }

  /** Who speaks `fromEnd` records from the newest one (which is 1). */
  function SpeakerFromEnd(fromEnd: int): Role {
    if fromEnd % 2 == 1 then Assistant else User
  }

  /**
    The shape a chat template expects of the message list: every content is non-empty and,
    counting from the newest record, odd positions are the bot's and even ones
    the user's (lemma ConversationAlternates).
   */
  predicate Conversation(window: seq<Turn>) {
    forall i :: 0 <= i < |window| ==> window[i].content != [] && window[i].role == SpeakerFromEnd(|window| - i)
  }

  /** A conversation alternates between the two speakers and ends with the bot. */
  lemma ConversationAlternates(window: seq<Turn>)
    requires Conversation(window)
    ensures forall i :: 0 < i < |window| ==> window[i - 1].role != window[i].role
    ensures window != [] ==> window[|window| - 1].role == Assistant
  {
    forall i | 0 < i < |window|
      ensures window[i - 1].role != window[i].role
    {
      assert window[i - 1].role == SpeakerFromEnd(|window| - i + 1);
      assert window[i].role == SpeakerFromEnd(|window| - i);
    }
  }

  /** The newest records of a conversation form a conversation. */
  lemma ConversationSuffix(window: seq<Turn>, s: seq<Turn>)
    requires Conversation(window) && IsNewest(s, window)
    ensures Conversation(s)
  {
    forall i | 0 <= i < |s|
      ensures s[i].content != [] && s[i].role == SpeakerFromEnd(|s| - i)
    {
      assert s[i] == window[|window| - |s| + i];
    }
  }

  lemma ConversationExtend(window: seq<Turn>, u: Turn, a: Turn)
    requires Conversation(window)
    requires u.role == User && a.role == Assistant && u.content != [] && a.content != []
    ensures Conversation(window + [u, a])
  {
    var s := window + [u, a];
    forall i | 0 <= i < |window|
      ensures s[i] == window[i] && SpeakerFromEnd(|s| - i) == SpeakerFromEnd(|window| - i)
    {
    }
  }

  /** A line that is empty after trimming changes nothing and is skipped. */
  lemma BlankInputIgnored(window: seq<Turn>, capacity: nat, line: string, engine: seq<Turn> -> Generation)
    requires |window| <= capacity
    requires AllSpace(line)
    ensures Transition(window, capacity, Classify(line), engine) == (Skipped, window)
  {
  }

  /**
    Commands are matched on the trimmed, lower-cased line: /help, /history and
    /exit leave the memory as it is, /clear empties it, /history shows the
    rendered history and /exit ends the loop.
   */
  lemma CommandEffects(window: seq<Turn>, capacity: nat, line: string, engine: seq<Turn> -> Generation)
    requires |window| <= capacity
    requires Classify(line).Command?
    ensures var cmd := ToLower(Strip(line));
      var res := Transition(window, capacity, Classify(line), engine);
      && (cmd == CommandName(Clear) <==> res == (Cleared, []))
      && (cmd != CommandName(Clear) ==> res.1 == window)
      && (cmd == CommandName(ShowHistory) <==> res.0 == HistoryShown(History(window)))
      && (cmd == CommandName(Exit) <==> res.0 == Exited)
      && (cmd == CommandName(Help) <==> res.0 == HelpShown)
  {
    CommandNamesDistinct();
  }

  lemma UpperClearStripped()
    ensures Strip("  /CLEAR ") == "/CLEAR"
  {
    StripUnique("  /CLEAR ", "  ", "/CLEAR", " ");
  }

  lemma UpperClearLowered()
    ensures ToLower("/CLEAR") == "/clear"
  {
    var lower := ToLower("/CLEAR");
    assert lower[0] == '/' && lower[1] == 'c' && lower[2] == 'l';
    assert lower[3] == 'e' && lower[4] == 'a' && lower[5] == 'r';
  }

  /** Upper-case spellings of the commands, with blanks around them, are commands too. */
  lemma CommandCaseExample(window: seq<Turn>, capacity: nat, engine: seq<Turn> -> Generation)
    requires |window| <= capacity
    ensures Classify("  /CLEAR ") == Command(Clear)
    ensures Transition(window, capacity, Classify("  /CLEAR "), engine) == (Cleared, [])
  {
    UpperClearStripped();
    UpperClearLowered();
  }

  /** Two appends keep the newest records of the window followed by both new records. */
  lemma WindowAppendTwice(window: seq<Turn>, capacity: nat, u: Turn, a: Turn, after: seq<Turn>)
    requires |window| <= capacity
    requires after == WindowAppend(WindowAppend(window, capacity, u), capacity, a)
    ensures |after| == (if |window| + 2 <= capacity then |window| + 2 else capacity)
    ensures IsNewest(after, window + [u, a])
  {
    var pending := WindowAppend(window, capacity, u);
    var all := window + [u, a];
    forall i | 0 <= i < |after|
      ensures after[i] == all[|all| - |after| + i]
    {
      var j := |pending| + 1 - |after| + i;
      assert after[i] == (pending + [a])[j];
      if j < |pending| {
        assert pending[j] == (window + [u])[|window| + 1 - |pending| + j];
      }
    }
  }

  /**
    A successful exchange for the message `text` stores it as a user record
    and then the reply as a bot record: the memory becomes the newest records
    of the old memory followed by these two; it ends with the reply whenever
    it holds anything, and with both new records when it has room for two.
    The reply is never empty.
   */
  lemma SuccessfulExchange(window: seq<Turn>, capacity: nat, text: string, engine: seq<Turn> -> Generation)
    requires |window| <= capacity
    requires engine(Pending(window, capacity, text)).Success?
    ensures var reply := BotReply(engine(Pending(window, capacity, text)).reply);
      var res := Exchange(window, capacity, text, engine);
      && res.0 == Replied(reply) && reply != []
      && |res.1| == (if |window| + 2 <= capacity then |window| + 2 else capacity)
      && IsNewest(res.1, window + [Turn(User, text), Turn(Assistant, reply)])
      && (capacity >= 1 ==> res.1[|res.1| - 1] == Turn(Assistant, reply))
      && (capacity >= 2 ==> res.1[|res.1| - 2] == Turn(User, text))
  {
    var u := Turn(User, text);
    var pending := Pending(window, capacity, text);
    var a := Turn(Assistant, BotReply(engine(pending).reply));
    var res := Exchange(window, capacity, text, engine);
    assert res.1 == WindowAppend(WindowAppend(window, capacity, u), capacity, a);
    WindowAppendTwice(window, capacity, u, a, res.1);
    var all := window + [u, a];
    if capacity >= 1 {
      assert res.1[|res.1| - 1] == all[|all| - 1];
    }
    if capacity >= 2 {
      assert res.1[|res.1| - 2] == all[|all| - 2];
    }
  }

  /**
    A failed exchange adds no record at all: the memory becomes the newest
    records of what it was. Below capacity it is exactly what it was; when the
    window was full, appending the user record already dropped the oldest
    record, so the rollback leaves the old memory without its oldest record.
   */
  lemma FailedExchange(window: seq<Turn>, capacity: nat, text: string, engine: seq<Turn> -> Generation)
    requires |window| <= capacity
    requires engine(Pending(window, capacity, text)) == Failure
    ensures var res := Exchange(window, capacity, text, engine);
      && res.0 == Failed
      && IsNewest(res.1, window)
      && |res.1| == (if |window| < capacity || capacity == 0 then |window| else |window| - 1)
  {
    var pending := Pending(window, capacity, text);
    var res := Exchange(window, capacity, text, engine);
    assert res.1 == RollBack(pending);
    if capacity > 0 {
      assert pending[|pending| - 1] == Turn(User, text);
      forall i | 0 <= i < |res.1|
        ensures res.1[i] == window[|window| - |res.1| + i]
      {
        assert res.1[i] == pending[i];
        assert pending[i] == (window + [Turn(User, text)])[|window| + 1 - |pending| + i];
      }
    }
  }

  /** An exchange for a trimmed, non-empty message keeps the memory a well-formed conversation. */
  lemma ExchangeKeepsConversation(window: seq<Turn>, capacity: nat, text: string, engine: seq<Turn> -> Generation)
    requires |window| <= capacity && Conversation(window)
    requires text != []
    ensures Conversation(Exchange(window, capacity, text, engine).1)
  {
    var after := Exchange(window, capacity, text, engine).1;
    if engine(Pending(window, capacity, text)).Success? {
      var u := Turn(User, text);
      var a := Turn(Assistant, BotReply(engine(Pending(window, capacity, text)).reply));
      SuccessfulExchange(window, capacity, text, engine);
      ConversationExtend(window, u, a);
      ConversationSuffix(window + [u, a], after);
    } else {
      FailedExchange(window, capacity, text, engine);
      ConversationSuffix(window, after);
    }
  }

  /** Every iteration of the loop keeps the memory a well-formed conversation. */
  lemma TransitionKeepsConversation(window: seq<Turn>, capacity: nat, input: Input, engine: seq<Turn> -> Generation)
    requires |window| <= capacity && Conversation(window)
    requires Readable(input)
    ensures Conversation(Transition(window, capacity, input, engine).1)
  {
    if input.Message? {
      ExchangeKeepsConversation(window, capacity, input.text, engine);
    }
  }

  /**
    A worked example with one exchange kept: after
    "a"/"b" the memory is [user a, bot b]; a failed exchange for "c" evicts
    "a" when "c" is appended and then rolls "c" back, leaving [bot b].
   */
  lemma EvictionThenRollbackExample(engine: seq<Turn> -> Generation)
    requires engine([Turn(Assistant, "b"), Turn(User, "c")]) == Failure
    ensures Classify("c") == Message("c")
    ensures Transition([Turn(User, "a"), Turn(Assistant, "b")], 2, Classify("c"), engine)
         == (Failed, [Turn(Assistant, "b")])
  {
    StripUnique("c", [], "c", []);
    assert ToLower("c") == "c";
    var window := [Turn(User, "a"), Turn(Assistant, "b")];
    assert window[1..] + [Turn(User, "c")] == [Turn(Assistant, "b"), Turn(User, "c")];
    FailedExchange(window, 2, "c", engine);
  }

  /** The input lines as the loop reads them, one classification per line. */
  function ClassifyAll(lines: seq<string>): (inputs: seq<Input>)
    ensures |inputs| == |lines|
    ensures forall k :: 0 <= k < |lines| ==> inputs[k] == Classify(lines[k])
    ensures forall k :: 0 <= k < |inputs| ==> Readable(inputs[k])
  {
    seq(|lines|, k requires 0 <= k < |lines| => Classify(lines[k]))
  }

  /** A classified line carries, if a message, trimmed text that is not empty. */
  predicate Readable(input: Input) {
    input.Message? ==> input.text != [] && Stripped(input.text)
  }

  /**
    The loop from input `start` on, with `engine(i)` the generator used for
    input `i`: the outcomes of the inputs handled and the final memory. The
    loop stops after /exit or when the input runs out.
   */
  function Session(window: seq<Turn>, capacity: nat, inputs: seq<Input>,
                   engine: nat -> seq<Turn> -> Generation, start: nat): (res: (seq<Outcome>, seq<Turn>))
    requires |window| <= capacity
    ensures |res.1| <= capacity
    decreases |inputs| - start
  {
    if start >= |inputs| then ([], window)
    else
      var (outcome, next) := Transition(window, capacity, inputs[start], engine(start));
      if outcome == Exited then ([outcome], next)
      else
        var (rest, last) := Session(next, capacity, inputs, engine, start + 1);
        ([outcome] + rest, last)
  }

  lemma SessionStep(window: seq<Turn>, capacity: nat, inputs: seq<Input>,
                    engine: nat -> seq<Turn> -> Generation, i: nat, outcome: Outcome, next: seq<Turn>)
    requires |window| <= capacity && i < |inputs|
    requires outcome == Transition(window, capacity, inputs[i], engine(i)).0
    requires next == Transition(window, capacity, inputs[i], engine(i)).1
    ensures |next| <= capacity
    ensures Session(window, capacity, inputs, engine, i).0
         == [outcome] + (if outcome == Exited then [] else Session(next, capacity, inputs, engine, i + 1).0)
    ensures Session(window, capacity, inputs, engine, i).1
         == (if outcome == Exited then next else Session(next, capacity, inputs, engine, i + 1).1)
  {
  }

  /** The loop's bookkeeping after an input that is not /exit: one more outcome, the rest of the session from the next input. */
  lemma SessionContinues(total: seq<Outcome>, outcomes: seq<Outcome>, window: seq<Turn>, capacity: nat,
                         inputs: seq<Input>, engine: nat -> seq<Turn> -> Generation, i: nat,
                         outcome: Outcome, next: seq<Turn>)
    requires |window| <= capacity && i < |inputs|
    requires outcome == Transition(window, capacity, inputs[i], engine(i)).0
    requires next == Transition(window, capacity, inputs[i], engine(i)).1
    requires outcome != Exited
    requires total == outcomes + Session(window, capacity, inputs, engine, i).0
    ensures |next| <= capacity
    ensures total == (outcomes + [outcome]) + Session(next, capacity, inputs, engine, i + 1).0
    ensures Session(window, capacity, inputs, engine, i).1 == Session(next, capacity, inputs, engine, i + 1).1
  {
    SessionStep(window, capacity, inputs, engine, i, outcome, next);
    var rest := Session(next, capacity, inputs, engine, i + 1).0;
    assert outcomes + ([outcome] + rest) == (outcomes + [outcome]) + rest;
  }

  /** A whole session keeps the memory a well-formed conversation. */
  lemma {:induction false} SessionKeepsConversation(window: seq<Turn>, capacity: nat, inputs: seq<Input>,
                                                   engine: nat -> seq<Turn> -> Generation, start: nat)
    requires |window| <= capacity && Conversation(window)
    requires forall k :: 0 <= k < |inputs| ==> Readable(inputs[k])
    ensures Conversation(Session(window, capacity, inputs, engine, start).1)
    decreases |inputs| - start
  {
    if start < |inputs| {
      var (outcome, next) := Transition(window, capacity, inputs[start], engine(start));
      TransitionKeepsConversation(window, capacity, inputs[start], engine(start));
      if outcome != Exited {
        SessionKeepsConversation(next, capacity, inputs, engine, start + 1);
      }
    }
  }

  /**
    The chatbot loop over a finite script of input lines, starting with an
    empty memory of `maxTurns` exchanges. After every line the memory is
    within capacity and a well-formed conversation; the loop handles every
    line up to and including the first /exit.
   */
  method RunSession(maxTurns: nat, lines: seq<string>, engine: nat -> seq<Turn> -> Generation)
    returns (outcomes: seq<Outcome>, final: seq<Turn>)
    ensures outcomes == Session([], 2 * maxTurns, ClassifyAll(lines), engine, 0).0
    ensures final == Session([], 2 * maxTurns, ClassifyAll(lines), engine, 0).1
    ensures |final| <= 2 * maxTurns && Conversation(final)
    ensures |outcomes| <= |lines|
    ensures forall k :: 0 <= k < |outcomes| - 1 ==> outcomes[k] != Exited
    ensures |outcomes| < |lines| ==> outcomes != [] && outcomes[|outcomes| - 1] == Exited
  {
    var memory := new ChatMemory(maxTurns);
    ghost var inputs := ClassifyAll(lines);
    ghost var whole := Session([], 2 * maxTurns, inputs, engine, 0);
    SessionKeepsConversation([], 2 * maxTurns, inputs, engine, 0);
    outcomes := [];
    var i := 0;
    assert whole.0 == outcomes + Session(memory.buffer, 2 * maxTurns, inputs, engine, i).0;
    while i < |lines|
      invariant 0 <= i <= |lines| && |outcomes| == i
      invariant memory.Valid() && memory.maxTurns == maxTurns
      invariant Exited !in outcomes
      invariant whole.0 == outcomes + Session(memory.buffer, 2 * maxTurns, inputs, engine, i).0
      invariant whole.1 == Session(memory.buffer, 2 * maxTurns, inputs, engine, i).1
      decreases |lines| - i
    {
      ghost var before := memory.buffer;
      var outcome := Step(memory, lines[i], engine(i));
      assert Classify(lines[i]) == inputs[i];
      if outcome == Exited {
        SessionStep(before, 2 * maxTurns, inputs, engine, i, outcome, memory.buffer);
        assert outcomes == (outcomes + [outcome])[..i];
        outcomes := outcomes + [outcome];
        final := memory.buffer;
        return;
      }
      SessionContinues(whole.0, outcomes, before, 2 * maxTurns, inputs, engine, i, outcome, memory.buffer);
      outcomes := outcomes + [outcome];
      i := i + 1;
    }
    final := memory.buffer;
    assert outcomes + [] == outcomes;
  }
}
