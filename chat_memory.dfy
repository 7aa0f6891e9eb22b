/**
  The chat memory: a sliding window of the last `maxTurns` user/bot exchanges,
  stored as at most `2 * maxTurns` role/content records, oldest first.
 */
module Memory {
  import opened Text

  /** The two canonical speakers a stored record may carry. */
  datatype Role = User | Assistant

  /** One stored message: a canonical role and trimmed content. */
  datatype Turn = Turn(role: Role, content: string)

  /**
    Role normalisation: the name "bot", in any letter case, is the assistant;
    every other name, the literal "assistant" included, is the user.
   */
  function NormalizeRole(name: string): Role {
    if ToLower(name) == "bot" then Assistant else User
  }

  /** NormalizeRole picks the assistant for exactly the eight spellings of "bot". */
  lemma NormalizeRoleIsBot(name: string)
    ensures NormalizeRole(name) == Assistant
        <==> |name| == 3 && name[0] in "bB" && name[1] in "oO" && name[2] in "tT"
  {
    if |name| == 3 && name[0] in "bB" && name[1] in "oO" && name[2] in "tT" {
      assert ToLower(name) == "bot";
    }
    if NormalizeRole(name) == Assistant {
      assert LowerChar(name[0]) == 'b' && LowerChar(name[1]) == 'o' && LowerChar(name[2]) == 't';
    }
  }

  lemma NormalizeRoleExamples()
    ensures NormalizeRole("bot") == Assistant && NormalizeRole("BOT") == Assistant
    ensures NormalizeRole("Bot") == Assistant
    ensures NormalizeRole("assistant") == User && NormalizeRole("user") == User
    ensures NormalizeRole("") == User && NormalizeRole("bots") == User
  {
    NormalizeRoleIsBot("bot");
    NormalizeRoleIsBot("BOT");
    NormalizeRoleIsBot("Bot");
    NormalizeRoleIsBot("assistant");
    NormalizeRoleIsBot("user");
    NormalizeRoleIsBot("");
    NormalizeRoleIsBot("bots");
  }

  /**
    `part` is the newest `|part|` records of `whole`, in their order, that is
    `part == whole[|whole| - |part|..]`. It is written index by index, with the
    matching index `j` bound separately, because the slice form sets off
    matching loops in the solver when the two sequences are appended to.
   */
  predicate IsNewest(part: seq<Turn>, whole: seq<Turn>) {
    && |part| <= |whole|
    && forall i, j :: 0 <= i < |part| && j == |whole| - |part| + i ==> part[i] == whole[j]
  }

  /**
    Appending to a deque with maximum length `capacity`: the result is the
    newest `min(|window| + 1, capacity)` records of `window + [t]`.
   */
  function WindowAppend(window: seq<Turn>, capacity: nat, t: Turn): (r: seq<Turn>)
    requires |window| <= capacity
    ensures |r| == if |window| < capacity then |window| + 1 else capacity
    ensures IsNewest(r, window + [t])
  {
    if |window| < capacity then window + [t]
    else if capacity == 0 then []
    else window[1..] + [t]
  }

  /**
    Appending to a full window drops exactly the oldest record, keeps the
    order of the survivors and puts the new record last; below capacity
    nothing is dropped.
   */
  lemma WindowAppendEvicts(window: seq<Turn>, capacity: nat, t: Turn)
    requires 0 < capacity && |window| <= capacity
    ensures var r := WindowAppend(window, capacity, t);
      && |r| <= capacity
      && r[|r| - 1] == t
      && r[..|r| - 1] == (if |window| == capacity then window[1..] else window)
  {
  }

  /** The line get_history shows for one record. */
  function DisplayLine(t: Turn): string {
    (if t.role == Assistant then "Bot" else "User") + ": " + t.content
  }

  /** The display lines of `turns`, one per record, in order. */
  function DisplayLines(turns: seq<Turn>): (lines: seq<string>)
    ensures |lines| == |turns|
    ensures forall i :: 0 <= i < |turns| ==> lines[i] == DisplayLine(turns[i])
  {
    if turns == [] then [] else DisplayLines(turns[..|turns| - 1]) + [DisplayLine(turns[|turns| - 1])]
  }

  /** What get_history returns: no history at all, or the display lines joined by newlines. */
  function History(turns: seq<Turn>): Option<string> {
    if turns == [] then None else Some(Join(DisplayLines(turns), "\n"))
  }

  /** The history is absent exactly when there are no records, and is never the empty text. */
  lemma HistoryPresence(turns: seq<Turn>)
    ensures History(turns).None? <==> turns == []
    ensures History(turns).Some? ==> |History(turns).value| >= 5
  {
    if turns != [] {
      JoinNonEmpty(DisplayLines(turns), "\n");
    }
  }

  lemma DisplayLineSingle(t: Turn)
    requires '\n' !in t.content
    ensures '\n' !in DisplayLine(t)
  {
    var prefix := if t.role == Assistant then "Bot: " else "User: ";
    assert DisplayLine(t) == prefix + t.content;
    assert forall j :: 0 <= j < |prefix| ==> prefix[j] != '\n';
    assert forall j :: |prefix| <= j < |DisplayLine(t)| ==> DisplayLine(t)[j] == t.content[j - |prefix|];
  }

  /**
    When no content holds a newline, splitting the history on newlines gives
    back exactly one display line per record, in record order.
   */
  lemma HistoryRoundTrip(turns: seq<Turn>)
    requires turns != []
    requires forall i :: 0 <= i < |turns| ==> '\n' !in turns[i].content
    ensures History(turns).Some?
    ensures SplitLines(History(turns).value) == DisplayLines(turns)
  {
    var lines := DisplayLines(turns);
    forall k | 0 <= k < |lines| ensures '\n' !in lines[k] {
      DisplayLineSingle(turns[k]);
    }
    SplitJoin(lines);
  }

  /** The history shown for one exchange. */
  lemma HistoryExample()
    ensures History([Turn(User, "hi"), Turn(Assistant, "yo")]) == Some("User: hi\nBot: yo")
  {
    var turns := [Turn(User, "hi"), Turn(Assistant, "yo")];
    var lines := DisplayLines(turns);
    assert lines[0] == "User: hi" && lines[1] == "Bot: yo";
    assert lines[1..] == ["Bot: yo"];
    assert Join(lines, "\n") == "User: hi" + "\n" + "Bot: yo";
    assert "User: hi" + "\n" + "Bot: yo" == "User: hi\nBot: yo";
    assert History(turns) == Some(Join(lines, "\n"));
  }

  /** The conversation memory of one session. */
  class ChatMemory {
    /** Number of user/bot exchanges kept. */
    const maxTurns: nat
    /** The stored records, oldest first. */
    var buffer: seq<Turn>

    /** The deque's maximum length. */
    function Capacity(): nat {
      2 * maxTurns
    }

    ghost predicate Valid()
      reads this
    {
      |buffer| <= Capacity()
    }

    constructor (maxTurns: nat)
      ensures this.maxTurns == maxTurns && Capacity() == 2 * maxTurns
      ensures buffer == [] && Valid()
    {
      this.maxTurns := maxTurns;
      buffer := [];
    }

    /**
      Stores `content`, trimmed, under the canonical role for `role`; when the
      window is full the oldest record is dropped.
     */
    method AddMessage(role: string, content: string)
      requires Valid()
      modifies this
      ensures Valid()
      ensures buffer == WindowAppend(old(buffer), Capacity(), Turn(NormalizeRole(role), Strip(content)))
    {
      var canonical := if ToLower(role) == "bot" then Assistant else User;
      buffer := buffer + [Turn(canonical, Strip(content))];
      if |buffer| > Capacity() {
        buffer := buffer[1..];
      }
    }

    /** A copy of the records, in order; the memory is not changed. */
    function GetMessageList(): (messages: seq<Turn>)
      reads this
      ensures |messages| == |buffer|
      ensures forall i :: 0 <= i < |buffer| ==> messages[i] == buffer[i]
    {
      buffer
    }

    /** The records rendered for display, or None when there are none. */
    method GetHistory() returns (history: Option<string>)
      ensures history == History(buffer)
      ensures history.None? <==> buffer == []
      ensures history.Some? ==> history.value != []
    {
      HistoryPresence(buffer);
      if buffer == [] {
        return None;
      }
      var displayList: seq<string> := [];
      for i := 0 to |buffer|
        invariant |displayList| == i
        invariant forall k :: 0 <= k < i ==> displayList[k] == DisplayLine(buffer[k])
      {
        var role := if buffer[i].role == Assistant then "Bot" else "User";
        displayList := displayList + [role + ": " + buffer[i].content];
      }
      assert displayList == DisplayLines(buffer);
      history := Some(Join(displayList, "\n"));
    }

    /** Empties the memory; the window size is kept. */
    method Clear()
      modifies this
      ensures buffer == [] && Valid()
    {
      buffer := [];
    }
  }
}
