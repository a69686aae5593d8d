/**
 * The command history of the panel and its deletion guard: the cursor of
 * `HistoryMatchList`, `History.push`, `MemHistory.append`/`match`, and the
 * parts of `GmPanel` that decide what to show or whether to allow a
 * deletion. What the view holds (the user's input, its selections) is given
 * to the operations as parameters.
 */
module GmPanel {
  import opened Wrappers
  import opened Text

  /** The commands of `stack` that start with `prefix`, in order. */
  function Matching(stack: seq<string>, prefix: string): seq<string> {
    if stack == [] then []
    else
      var last := stack[|stack| - 1];
      Matching(stack[..|stack| - 1], prefix) + if StartsWith(last, prefix) then [last] else []
  }

  /** Matching distributes over concatenation, so it keeps the order of the
      stack. */
  lemma {:induction false} MatchingAppend(a: seq<string>, b: seq<string>, prefix: string)
    ensures Matching(a + b, prefix) == Matching(a, prefix) + Matching(b, prefix)
    decreases |b|
  {
    if b == [] {
      assert a + b == a;
    } else {
      var b' := b[..|b| - 1];
      var last := b[|b| - 1];
      assert (a + b)[..|a + b| - 1] == a + b';
      MatchingAppend(a, b', prefix);
    }
  }

  /** Every command is kept as often as it was stored if it starts with the
      prefix, and never otherwise. */
  lemma {:induction false} MatchingCounts(stack: seq<string>, prefix: string, c: string)
    ensures multiset(Matching(stack, prefix))[c] == if StartsWith(c, prefix) then multiset(stack)[c] else 0
  {
    if stack != [] {
      var rest := stack[..|stack| - 1];
      MatchingCounts(rest, prefix, c);
      assert stack == rest + [stack[|stack| - 1]];
    }
  }

  /** The matches are the stored commands that start with the prefix. */
  lemma {:induction false} MatchingMembers(stack: seq<string>, prefix: string)
    ensures forall c :: c in Matching(stack, prefix) <==> c in stack && StartsWith(c, prefix)
  {
    if stack != [] {
      var rest := stack[..|stack| - 1];
      MatchingMembers(rest, prefix);
      assert stack == rest + [stack[|stack| - 1]];
    }
  }

  /** The empty prefix matches the whole stack. */
  lemma {:induction false} MatchingEverything(stack: seq<string>)
    ensures Matching(stack, "") == stack
  {
    if stack != [] {
      MatchingEverything(stack[..|stack| - 1]);
      assert StartsWith(stack[|stack| - 1], "");
    }
  }

  /** The commands matching `prefix`, with a cursor that starts one past
      the last of them. */
  class HistoryMatchList {
    const prefix: string
    const commands: seq<string>
    var cur: int

    /** The cursor stays in `[0, len]`, or at -1 for an empty list, where
        `next_command` puts it. */
    predicate Valid()
      reads this
    {
      (0 <= cur <= |commands|) || (commands == [] && cur == -1)
    }

    /** The cursor is on a command, or there is none. */
    predicate OnCommand()
      reads this
    {
      commands == [] || 0 <= cur < |commands|
    }

    constructor (prefix: string, commands: seq<string>)
      ensures this.prefix == prefix && this.commands == commands
      ensures cur == |commands|
      ensures Valid()
    {
      this.prefix := prefix;
      this.commands := commands;
      cur := |commands|;
    }

    /** `current_command`: `""` for an empty list, the command under the
        cursor otherwise; `None` is the `IndexError` of a cursor one past
        the end. */
    function Current(): (r: Option<string>)
      requires Valid()
      reads this
      ensures r.None? <==> !OnCommand()
      ensures commands == [] ==> r == Some("")
      ensures r.Some? && commands != [] ==> r.value in commands
    {
      if commands == [] then Some("")
      else if cur < |commands| then Some(commands[cur])
      else None
    }

    /** `prev_command`: one step back, never below 0. */
    method Prev() returns (r: Option<string>)
      requires Valid()
      modifies this
      ensures Valid() && OnCommand()
      ensures cur == if old(cur) - 1 > 0 then old(cur) - 1 else 0
      ensures r == Current() && r.Some?
      ensures old(cur) == |commands| > 0 ==> r == Some(commands[|commands| - 1])
    {
      cur := if cur - 1 > 0 then cur - 1 else 0;
      r := Current();
    }

    /** `next_command`: one step forward, never above `len - 1`. */
    method Next() returns (r: Option<string>)
      requires Valid()
      modifies this
      ensures Valid() && OnCommand()
      ensures cur == if old(cur) + 1 < |commands| - 1 then old(cur) + 1 else |commands| - 1
      ensures r == Current() && r.Some?
    {
      cur := if cur + 1 < |commands| - 1 then cur + 1 else |commands| - 1;
      r := Current();
    }
  }

  /** A stored command: not empty and without trailing whitespace. */
  predicate Stripped(cmd: string) {
    cmd != [] && !IsSpace(cmd[|cmd| - 1])
  }

  /** `History.push` on the state `(last, stack)` of a `MemHistory`. */
  function Pushed(last: Option<string>, stack: seq<string>, command: string): (Option<string>, seq<string>) {
    var cmd := RStrip(command);
    if cmd == [] || last == Some(cmd) then (last, stack) else (Some(cmd), stack + [cmd])
  }

  /** A push stores the command without its trailing whitespace, once,
      unless that is empty or repeats the last command. */
  lemma PushedIs(last: Option<string>, stack: seq<string>, command: string)
    ensures var (last', stack') := Pushed(last, stack, command);
      && (RStrip(command) == [] || last == Some(RStrip(command)) <==> stack' == stack)
      && (stack' != stack ==> stack' == stack + [RStrip(command)] && last' == Some(RStrip(command)))
      && (stack' == stack ==> last' == last)
  {
  }

  /** A history whose `last` is its newest command, whose commands are
      stripped and which never holds the same command twice in a row. */
  ghost predicate WellKept(last: Option<string>, stack: seq<string>) {
    && last == (if stack == [] then None else Some(stack[|stack| - 1]))
    && (forall i | 0 <= i < |stack| :: Stripped(stack[i]))
    && (forall i | 0 < i < |stack| :: stack[i - 1] != stack[i])
  }

  /** Pushing keeps a history well kept. */
  lemma PushKeeps(last: Option<string>, stack: seq<string>, command: string)
    requires WellKept(last, stack)
    ensures WellKept(Pushed(last, stack, command).0, Pushed(last, stack, command).1)
  {
    var cmd := RStrip(command);
    RStripShape(command);
    if cmd != [] && last != Some(cmd) {
      var s := stack + [cmd];
      forall i | 0 <= i < |s|
        ensures Stripped(s[i])
      {
        if i < |stack| {
          assert s[i] == stack[i];
        }
      }
      forall i | 0 < i < |s|
        ensures s[i - 1] != s[i]
      {
        if i < |stack| {
          assert s[i - 1] == stack[i - 1] && s[i] == stack[i];
        }
      }
    }
  }

  /** `MemHistory`: the pushed commands, oldest first. */
  class MemHistory {
    var last: Option<string>
    var stack: seq<string>

    ghost predicate Valid()
      reads this
    {
      WellKept(last, stack)
    }

    constructor ()
      ensures last == None && stack == []
      ensures Valid()
    {
      last := None;
      stack := [];
    }

    method Append(cmd: string)
      modifies this
      ensures stack == old(stack) + [cmd] && last == old(last)
    {
      stack := stack + [cmd];
    }

    method Push(command: string)
      requires Valid()
      modifies this
      ensures (last, stack) == Pushed(old(last), old(stack), command)
      ensures Valid()
    {
      PushKeeps(last, stack, command);
      var cmd := RStrip(command);
      if cmd == [] || last == Some(cmd) {
        return;
      }
      Append(cmd);
      last := Some(cmd);
    }

    /** `match`: a new list of the commands that start with `prefix`. */
    method Match(prefix: string) returns (m: HistoryMatchList)
      ensures fresh(m) && m.Valid()
      ensures m.prefix == prefix && m.commands == Matching(stack, prefix) && m.cur == |m.commands|
    {
      var matching: seq<string> := [];
      var i := 0;
      while i < |stack|
        invariant i <= |stack|
        invariant matching == Matching(stack[..i], prefix)
      {
        var cmd := stack[i];
        assert stack[..i + 1][..i] == stack[..i];
        if StartsWith(cmd, prefix) {
          matching := matching + [cmd];
        }
        i := i + 1;
      }
      assert stack[..i] == stack;
      m := new HistoryMatchList(prefix, matching);
    }
  }

  /** A selection of the panel: where it begins and where it ends. */
  datatype Selection = Selection(begin: int, end: int)

  /** `allow_deletion`'s verdict: no selection is an empty cursor right at
      the end of the output, and none begins or ends inside the output. */
  predicate DeletionAllowed(sels: seq<Selection>, outputEnd: int) {
    forall i | 0 <= i < |sels| ::
      && !(sels[i].begin == sels[i].end == outputEnd)
      && sels[i].begin >= outputEnd && sels[i].end >= outputEnd
  }

  /** The text a deletion erases for one selection: the selected range, or
      the character before an empty cursor. */
  function Erased(sel: Selection): (int, int) {
    if sel.begin == sel.end then (sel.begin - 1, sel.begin)
    else if sel.begin < sel.end then (sel.begin, sel.end)
    else (sel.end, sel.begin)
  }

  /** A deletion is allowed exactly when nothing it would erase lies in the
      output, before `outputEnd`. */
  lemma DeletionAllowedIff(sels: seq<Selection>, outputEnd: int)
    ensures DeletionAllowed(sels, outputEnd) <==> forall i | 0 <= i < |sels| :: Erased(sels[i]).0 >= outputEnd
  {
    if !DeletionAllowed(sels, outputEnd) {
      var i :| 0 <= i < |sels| && !(
        && !(sels[i].begin == sels[i].end == outputEnd)
        && sels[i].begin >= outputEnd && sels[i].end >= outputEnd);
      assert Erased(sels[i]).0 < outputEnd;
    }
  }

  /** The panel's history state; the view itself is left out. */
  class Panel {
    const history: MemHistory
    var historyMatch: HistoryMatchList?
    var outputEnd: int

    /** The history is well kept, and a match list, while there is one,
        holds the current matches of its prefix and has been moved onto a
        command. */
    ghost predicate Valid()
      reads this, history, historyMatch
    {
      && history.Valid()
      && (historyMatch != null ==>
            && historyMatch.Valid() && historyMatch.OnCommand()
            && historyMatch.commands == Matching(history.stack, historyMatch.prefix))
    }

    constructor (outputEnd: int)
      ensures fresh(history) && history.last == None && history.stack == []
      ensures historyMatch == null && this.outputEnd == outputEnd
      ensures Valid()
    {
      history := new MemHistory();
      historyMatch := null;
      this.outputEnd := outputEnd;
    }

    /** `push_history`: push and forget the match list. */
    method PushHistory(command: string)
      modifies this, history
      requires Valid()
      ensures (history.last, history.stack) == Pushed(old(history.last), old(history.stack), command)
      ensures historyMatch == null && outputEnd == old(outputEnd)
      ensures Valid()
    {
      history.Push(command);
      historyMatch := null;
    }

    /** `ensure_history_match` with the user's input `userInput`: the match
        list is kept while the input is still its current command, and
        replaced by a fresh one for the input otherwise. */
    method EnsureHistoryMatch(userInput: string)
      requires Valid()
      modifies this
      ensures historyMatch != null && historyMatch.Valid() && history.Valid()
      ensures historyMatch.commands == Matching(history.stack, historyMatch.prefix)
      ensures outputEnd == old(outputEnd)
      ensures old(historyMatch) != null && old(historyMatch.Current()) == Some(userInput)
              ==> historyMatch == old(historyMatch) && historyMatch.OnCommand()
      ensures !(old(historyMatch) != null && old(historyMatch.Current()) == Some(userInput))
              ==> && fresh(historyMatch) && historyMatch.prefix == userInput
                  && historyMatch.commands == Matching(history.stack, userInput)
                  && historyMatch.cur == |historyMatch.commands|
    {
      if historyMatch != null {
        if historyMatch.Current() != Some(userInput) {
          historyMatch := null;
        }
      }
      if historyMatch == null {
        historyMatch := history.Match(userInput);
      }
    }

    /** `previous_command`: while the input is still the command the match
        list shows, the cursor steps back one, never below 0; otherwise a
        fresh list for the input starts at its newest match. The input
        afterwards is the command under the cursor, or the unchanged
        `userInput` when nothing matches; stored commands are never empty,
        so one found always replaces the input. */
    method PreviousCommand(userInput: string) returns (input: string)
      requires Valid()
      modifies this, historyMatch
      ensures Valid() && historyMatch != null && outputEnd == old(outputEnd)
      ensures var c := historyMatch.commands;
        input == (if c == [] then userInput else c[historyMatch.cur])
      ensures old(historyMatch) != null && old(historyMatch.Current()) == Some(userInput) ==>
        && historyMatch == old(historyMatch)
        && historyMatch.cur == (if old(historyMatch.cur) - 1 > 0 then old(historyMatch.cur) - 1 else 0)
      ensures !(old(historyMatch) != null && old(historyMatch.Current()) == Some(userInput)) ==>
        && fresh(historyMatch) && historyMatch.prefix == userInput
        && historyMatch.commands == Matching(history.stack, userInput)
        && historyMatch.cur == (if |historyMatch.commands| - 1 > 0 then |historyMatch.commands| - 1 else 0)
    {
      EnsureHistoryMatch(userInput);
      MatchingMembers(history.stack, historyMatch.prefix);
      var cmd := historyMatch.Prev();
      input := if cmd.value != "" then cmd.value else userInput;
    }

    /** `next_command`, as `PreviousCommand` in the other direction: a
        kept list steps forward one, never above `len - 1`; a fresh list
        also lands on its newest match. */
    method NextCommand(userInput: string) returns (input: string)
      requires Valid()
      modifies this, historyMatch
      ensures Valid() && historyMatch != null && outputEnd == old(outputEnd)
      ensures var c := historyMatch.commands;
        input == (if c == [] then userInput else c[historyMatch.cur])
      ensures old(historyMatch) != null && old(historyMatch.Current()) == Some(userInput) ==>
        && historyMatch == old(historyMatch)
        && historyMatch.cur == (if old(historyMatch.cur) + 1 < |historyMatch.commands| - 1 then old(historyMatch.cur) + 1 else |historyMatch.commands| - 1)
      ensures !(old(historyMatch) != null && old(historyMatch.Current()) == Some(userInput)) ==>
        && fresh(historyMatch) && historyMatch.prefix == userInput
        && historyMatch.commands == Matching(history.stack, userInput)
        && historyMatch.cur == |historyMatch.commands| - 1
    {
      EnsureHistoryMatch(userInput);
      MatchingMembers(history.stack, historyMatch.prefix);
      var cmd := historyMatch.Next();
      input := if cmd.value != "" then cmd.value else userInput;
    }

    /** `allow_deletion` over the view's selections. */
    method AllowDeletion(sels: seq<Selection>) returns (allow: bool)
      ensures allow <==> DeletionAllowed(sels, outputEnd)
    {
      var i := 0;
      while i < |sels|
        invariant i <= |sels|
        invariant DeletionAllowed(sels[..i], outputEnd)
      {
        var sel := sels[i];
        if sel.begin == sel.end && sel.begin == outputEnd {
          return false;
        }
        if sel.begin < outputEnd || sel.end < outputEnd {
          return false;
        }
        assert sels[..i + 1] == sels[..i] + [sel];
        i := i + 1;
      }
      assert sels[..i] == sels;
      return true;
    }
  }
}
