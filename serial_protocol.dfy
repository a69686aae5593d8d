/**
 * The value-level half of the serial monitor: cleaning received bytes, the
 * echo check, the poll loop and verdict of one scripted exchange, the verb
 * dispatcher of `send`, and the fixed command scripts of `ls`, `cat`, `rm`,
 * `touch` and of a file upload.
 *
 * The serial port is abstracted as a supply of read results: the i-th read
 * returns the i-th chunk, and once the supply is used up every read times
 * out and returns no bytes.
 */
module SerialProtocol {
  import opened Wrappers
  import opened Text

  const CR: char := '\r'
  const ESC: char := '\U{1B}'
  /** `SerialMonitor.TERMINATOR`, appended to everything written. */
  const Terminator: string := "\r\n"
  /** The device prompt that ends a reply. */
  const Prompt: string := "\n> "
  /** The iteration bound of the poll loop in `_command`. */
  const MaxPolls: nat := 1000

  // ---------------------------------------------------------------------
  // data2str

  /** `data2str`: the three `replace` calls of the source, in their order. */
  function Data2Str(data: string): string {
    Replace(Replace(Replace(data, [CR], []), "\r\n", "\n"), [ESC], [])
  }

  /** Once every CR is gone, the CRLF-to-LF replacement finds nothing. */
  lemma CrlfStepIsIdle(data: string)
    ensures Replace(Replace(data, [CR], []), "\r\n", "\n") == Replace(data, [CR], [])
  {
    var s := Replace(data, [CR], []);
    ReplaceCharByNothing(data, CR);
    WithoutExcludes(data, {CR});
    forall i: nat | i <= |s|
      ensures !OccursAt(s, "\r\n", i)
    {
      if i + 2 <= |s| {
        assert s[i..i + 2][0] == s[i];
        assert s[i] != CR;
      }
    }
    ReplaceAbsent(s, "\r\n", "\n");
  }

  /** The cleaned text is the received bytes minus every CR and ESC, the
      other bytes kept in their order. */
  lemma Data2StrIsFilter(data: string)
    ensures Data2Str(data) == Without(data, {CR, ESC})
    ensures forall i | 0 <= i < |Data2Str(data)| :: Data2Str(data)[i] != CR && Data2Str(data)[i] != ESC
  {
    CrlfStepIsIdle(data);
    ReplaceCharByNothing(data, CR);
    ReplaceCharByNothing(Without(data, {CR}), ESC);
    WithoutTwice(data, {CR}, {ESC});
    assert {CR} + {ESC} == {CR, ESC};
    WithoutExcludes(data, {CR, ESC});
  }

  /** Cleaning commutes with concatenation: the reader thread may receive
      the stream in any chunking and shows the same text. */
  lemma Data2StrAppend(a: string, b: string)
    ensures Data2Str(a + b) == Data2Str(a) + Data2Str(b)
  {
    Data2StrIsFilter(a);
    Data2StrIsFilter(b);
    Data2StrIsFilter(a + b);
    WithoutAppend(a, b, {CR, ESC});
  }

  // ---------------------------------------------------------------------
  // _is_echo

  /** What `_is_echo(cmd, packet)` decides: each character of the command
      occurs somewhere in the reply. */
  predicate Echoes(cmd: string, packet: string) {
    forall i | 0 <= i < |cmd| :: cmd[i] in packet
  }

  /** `_is_echo`: the loop over the command's characters with its early exit. */
  method IsEcho(cmd: string, packet: string) returns (echoed: bool)
    ensures echoed <==> Echoes(cmd, packet)
  {
    var i := 0;
    while i < |cmd|
      invariant 0 <= i <= |cmd|
      invariant forall j | 0 <= j < i :: cmd[j] in packet
    {
      if cmd[i] !in packet {
        return false;
      }
      i := i + 1;
    }
    return true;
  }

  /** The echo check ignores order and repetition: it holds exactly when the
      command's characters form a subset of the reply's. */
  lemma EchoesIsCharacterSubset(cmd: string, packet: string)
    ensures Echoes(cmd, packet) <==> (set c | c in cmd) <= (set c | c in packet)
  {
    if Echoes(cmd, packet) {
      forall c | c in cmd ensures c in packet {
        var i :| 0 <= i < |cmd| && cmd[i] == c;
      }
    } else {
      var i :| 0 <= i < |cmd| && cmd[i] !in packet;
      var mine := set c | c in cmd;
      var theirs := set c | c in packet;
      assert cmd[i] in mine && cmd[i] !in theirs;
      assert !(mine <= theirs);
    }
  }

  // ---------------------------------------------------------------------
  // The link's read results and the poll loop of _command

  datatype Chunk = Bytes(data: string) | ReadFault(reason: string)

  /** The result of read number `i` (counting from 0). */
  function ReadAt(chunks: seq<Chunk>, i: nat): Chunk {
    if i < |chunks| then chunks[i] else Bytes([])
  }

  /** The supply that remains after `n` reads. */
  function DropN(chunks: seq<Chunk>, n: nat): (rest: seq<Chunk>)
    ensures |rest| <= |chunks|
  {
    if n < |chunks| then chunks[n..] else []
  }

  lemma DropNRead(chunks: seq<Chunk>, n: nat, k: nat)
    ensures ReadAt(DropN(chunks, n), k) == ReadAt(chunks, n + k)
  {
  }

  lemma DropNDrop(chunks: seq<Chunk>, n: nat, m: nat)
    ensures DropN(DropN(chunks, n), m) == DropN(chunks, n + m)
  {
  }

  function DataOf(c: Chunk): string {
    if c.Bytes? then c.data else []
  }

  /** The bytes of the first `k` reads, concatenated. */
  ghost function Joined(chunks: seq<Chunk>, k: nat): string {
    if k == 0 then [] else Joined(chunks, k - 1) + DataOf(ReadAt(chunks, k - 1))
  }

  /** Read `j` succeeds and ends polling: it is empty, or with it the
      buffer holds the prompt. */
  ghost predicate StopsAt(chunks: seq<Chunk>, j: nat) {
    ReadAt(chunks, j).Bytes?
    && (ReadAt(chunks, j).data == [] || Contains(Joined(chunks, j + 1), Prompt))
  }

  /** Read `j` succeeds and polling goes on after it. */
  ghost predicate ContinuesAt(chunks: seq<Chunk>, j: nat) {
    ReadAt(chunks, j).Bytes? && !StopsAt(chunks, j)
  }

  datatype Polled = Gathered(packet: string, readCount: nat) | Broken(reason: string, readCount: nat)

  /** The `for _ in range(1000)` loop of `_command`, from read `i` on, with
      `buf` read so far and `fuel` iterations left. `readCount` counts the read
      calls made, from 0. */
  function Poll(chunks: seq<Chunk>, i: nat, buf: string, fuel: nat): (p: Polled)
    ensures p.readCount <= i + fuel
    ensures fuel > 0 ==> i < p.readCount
    ensures fuel == 0 ==> p == Gathered([], i)
    decreases fuel
  {
    if fuel == 0 then Gathered([], i)
    else match ReadAt(chunks, i)
      case ReadFault(reason) => Broken(reason, i + 1)
      case Bytes(d) =>
        var b := buf + d;
        if d == [] || Contains(b, Prompt) then Gathered(Data2Str(b), i + 1)
        else Poll(chunks, i + 1, b, fuel - 1)
  }

  /** Reads that neither fail nor stop only extend the buffer. */
  lemma {:induction false} PollSkips(chunks: seq<Chunk>, i: nat, k: nat, fuel: nat)
    requires i <= k <= i + fuel
    requires forall j | i <= j < k :: ContinuesAt(chunks, j)
    ensures Poll(chunks, i, Joined(chunks, i), fuel) == Poll(chunks, k, Joined(chunks, k), fuel - (k - i))
    decreases k - i
  {
    if i < k {
      PollContinues(chunks, i, fuel);
      PollSkips(chunks, i + 1, k, fuel - 1);
    }
  }

  /** One read that neither fails nor stops. */
  lemma PollContinues(chunks: seq<Chunk>, i: nat, fuel: nat)
    requires 0 < fuel && ContinuesAt(chunks, i)
    ensures Poll(chunks, i, Joined(chunks, i), fuel) == Poll(chunks, i + 1, Joined(chunks, i + 1), fuel - 1)
  {
    assert Joined(chunks, i + 1) == Joined(chunks, i) + ReadAt(chunks, i).data;
  }

  /** The packet is the cleaned bytes of all reads up to the first one that
      is empty or completes the prompt, when that happens within 1000 reads. */
  lemma PollStopsAtFirstStop(chunks: seq<Chunk>, k: nat)
    requires k < MaxPolls
    requires forall j | 0 <= j < k :: ContinuesAt(chunks, j)
    requires StopsAt(chunks, k)
    ensures Poll(chunks, 0, [], MaxPolls) == Gathered(Data2Str(Joined(chunks, k + 1)), k + 1)
  {
    PollSkips(chunks, 0, k, MaxPolls);
  }

  /** A read that raises ends polling with that failure. */
  lemma PollFailsAtFirstFault(chunks: seq<Chunk>, k: nat)
    requires k < MaxPolls
    requires forall j | 0 <= j < k :: ContinuesAt(chunks, j)
    requires ReadAt(chunks, k).ReadFault?
    ensures Poll(chunks, 0, [], MaxPolls) == Broken(ReadAt(chunks, k).reason, k + 1)
  {
    PollSkips(chunks, 0, k, MaxPolls);
  }

  /** After 1000 reads without a stop the packet stays empty. */
  lemma PollGivesUp(chunks: seq<Chunk>)
    requires forall j | 0 <= j < MaxPolls :: ContinuesAt(chunks, j)
    ensures Poll(chunks, 0, [], MaxPolls) == Gathered([], MaxPolls)
  {
    PollSkips(chunks, 0, MaxPolls, MaxPolls);
  }

  // ---------------------------------------------------------------------
  // One exchange and a script of exchanges

  /** The errors of the engine: `DeviceEchoError`, `DeviceReplyError`, a
      transport error of pyserial carrying its message, and the
      `UnicodeDecodeError` of reading a file that is not valid UTF-8. */
  datatype Failure = EchoMissing | ReplyMissing | LinkFailed(reason: string) | DecodeFailed(reason: string)

  datatype Outcome = Done | Failed(failure: Failure)

  /** `str(e)` of each error. */
  function FailureText(f: Failure): string {
    match f
    case EchoMissing => "device without Echo\n"
    case ReplyMissing => "device without reply\n"
    case LinkFailed(reason) => reason
    case DecodeFailed(reason) => reason
  }

  /** One call of `_command(cmd, rsp, echo)`; an empty `rsp` stands for the
      absent one (the source tests its truth value). */
  datatype Step = Step(cmd: string, rsp: string, echo: bool)

  function Framed(cmd: string): string {
    cmd + Terminator
  }

  /** The two checks at the end of `_command`, echo first. */
  function Verdict(step: Step, packet: string): Outcome {
    if !Echoes(step.cmd, packet) then Failed(EchoMissing)
    else if step.rsp != [] && !Contains(packet, step.rsp) then Failed(ReplyMissing)
    else Done
  }

  /** What one exchange does: its outcome, the reads it made and the texts
      it put on the message queue. */
  datatype Exchanged = Exchanged(outcome: Outcome, readCount: nat, shown: seq<string>)

  function Exchange(chunks: seq<Chunk>, step: Step): (e: Exchanged)
    ensures e.readCount <= MaxPolls
  {
    match Poll(chunks, 0, [], MaxPolls)
    case Broken(reason, n) => Exchanged(Failed(LinkFailed(reason)), n, [])
    case Gathered(packet, n) =>
      Exchanged(Verdict(step, packet), n, if step.echo then [packet] else [])
  }

  /** The echo check fails exactly when a character of the command is
      missing from the packet; otherwise the reply check fails exactly when
      a required reply is not a substring of it. */
  lemma ExchangeVerdict(chunks: seq<Chunk>, step: Step)
    requires Poll(chunks, 0, [], MaxPolls).Gathered?
    ensures var packet := Poll(chunks, 0, [], MaxPolls).packet;
      && (Exchange(chunks, step).outcome == Failed(EchoMissing) <==> !Echoes(step.cmd, packet))
      && (Exchange(chunks, step).outcome == Failed(ReplyMissing)
          <==> Echoes(step.cmd, packet) && step.rsp != [] && !Contains(packet, step.rsp))
      && (Exchange(chunks, step).outcome == Done
          <==> Echoes(step.cmd, packet) && (step.rsp == [] || Contains(packet, step.rsp)))
  {
  }

  function Framing(steps: seq<Step>): (sent: seq<string>)
    ensures |sent| == |steps|
    ensures forall i | 0 <= i < |steps| :: sent[i] == Framed(steps[i].cmd)
  {
    if steps == [] then [] else [Framed(steps[0].cmd)] + Framing(steps[1..])
  }

  /** A run of several exchanges: its outcome, the writes, the reads and
      the texts put on the message queue. */
  datatype Run = Run(outcome: Outcome, sent: seq<string>, readCount: nat, shown: seq<string>)

  const NoRun := Run(Done, [], 0, [])

  function Extend(r: Run, step: Step, e: Exchanged): Run {
    Run(e.outcome, r.sent + [Framed(step.cmd)], r.readCount + e.readCount, r.shown + e.shown)
  }

  /** How one exchange turns the pending reads and a step into its effect;
      the engine's is `Exchange`. Scripts are stated over any such function
      so that their laws do not depend on what one exchange does. */
  type Exchanger = (seq<Chunk>, Step) -> Exchanged

  /** Consecutive exchanges where the first raised error ends the sequence. */
  function Script(ex: Exchanger, chunks: seq<Chunk>, steps: seq<Step>): Run
    decreases |steps|
  {
    if steps == [] then NoRun
    else
      var e := ex(chunks, steps[0]);
      if e.outcome.Failed? then Extend(NoRun, steps[0], e)
      else Prepend(steps[0], e, Script(ex, DropN(chunks, e.readCount), steps[1..]))
  }

  /** A successful exchange of `step` followed by the run `r`. */
  function Prepend(step: Step, e: Exchanged, r: Run): Run {
    Run(r.outcome, [Framed(step.cmd)] + r.sent, e.readCount + r.readCount, e.shown + r.shown)
  }

  lemma PrependExtend(first: Step, e: Exchanged, r: Run, step: Step, last: Exchanged)
    ensures Prepend(first, e, Extend(r, step, last)) == Extend(Prepend(first, e, r), step, last)
  {
    assert [Framed(first.cmd)] + (r.sent + [Framed(step.cmd)]) == ([Framed(first.cmd)] + r.sent) + [Framed(step.cmd)];
    assert e.shown + (r.shown + last.shown) == (e.shown + r.shown) + last.shown;
  }

  /** Consecutive `_command` calls where the first raised error ends the
      sequence. */
  function RunScript(chunks: seq<Chunk>, steps: seq<Step>): Run {
    Script(Exchange, chunks, steps)
  }

  /** A script writes a prefix of its commands, each with the terminator; all
      of them when it succeeds, and at least the failing one when it does not.
      When each exchange makes at most 1000 reads, so does each step of it. */
  lemma {:induction false} ScriptSends(ex: Exchanger, chunks: seq<Chunk>, steps: seq<Step>)
    ensures var r := Script(ex, chunks, steps);
      && |r.sent| <= |steps| && r.sent == Framing(steps[..|r.sent|])
      && (r.outcome.Done? ==> |r.sent| == |steps|)
      && (r.outcome.Failed? ==> 0 < |r.sent|)
      && ((forall cs, s :: ex(cs, s).readCount <= MaxPolls) ==> r.readCount <= MaxPolls * |r.sent|)
    decreases |steps|
  {
    if steps != [] {
      var e := ex(chunks, steps[0]);
      if e.outcome.Failed? {
        assert steps[..1] == [steps[0]];
      } else {
        var rest := Script(ex, DropN(chunks, e.readCount), steps[1..]);
        ScriptSends(ex, DropN(chunks, e.readCount), steps[1..]);
        assert steps[..|rest.sent| + 1] == [steps[0]] + steps[1..][..|rest.sent|];
      }
    }
  }

  /** The engine's exchange makes at most 1000 reads. */
  lemma ExchangeBounded()
    ensures forall cs, s :: Exchange(cs, s).readCount <= MaxPolls
  {
  }

  /** Running one more step after a successful script extends the run by
      that step's exchange on the reads left over. */
  lemma {:induction false} ScriptSnoc(ex: Exchanger, chunks: seq<Chunk>, steps: seq<Step>, step: Step)
    requires Script(ex, chunks, steps).outcome.Done?
    ensures var r := Script(ex, chunks, steps);
      Script(ex, chunks, steps + [step]) == Extend(r, step, ex(DropN(chunks, r.readCount), step))
    decreases |steps|
  {
    if steps == [] {
      assert steps + [step] == [step];
      assert DropN(chunks, 0) == chunks;
    } else {
      var e := ex(chunks, steps[0]);
      var rest := DropN(chunks, e.readCount);
      var r1 := Script(ex, rest, steps[1..]);
      var last := ex(DropN(rest, r1.readCount), step);
      var longer := steps + [step];
      assert longer[0] == steps[0] && longer[1..] == steps[1..] + [step];
      calc {
        Script(ex, chunks, longer);
        Prepend(steps[0], e, Script(ex, rest, steps[1..] + [step]));
        { ScriptSnoc(ex, rest, steps[1..], step); }
        Prepend(steps[0], e, Extend(r1, step, last));
        { PrependExtend(steps[0], e, r1, step, last); }
        Extend(Prepend(steps[0], e, r1), step, last);
        { DropNDrop(chunks, e.readCount, r1.readCount); }
        Extend(Script(ex, chunks, steps), step, ex(DropN(chunks, Script(ex, chunks, steps).readCount), step));
      }
    }
  }

  /** A failing step aborts the rest of the script. */
  lemma {:induction false} ScriptStopsAtFailure(ex: Exchanger, chunks: seq<Chunk>, steps: seq<Step>, more: seq<Step>)
    requires Script(ex, chunks, steps).outcome.Failed?
    ensures Script(ex, chunks, steps + more) == Script(ex, chunks, steps)
    decreases |steps|
  {
    var e := ex(chunks, steps[0]);
    assert (steps + more)[0] == steps[0];
    if e.outcome.Done? {
      assert (steps + more)[1..] == steps[1..] + more;
      ScriptStopsAtFailure(ex, DropN(chunks, e.readCount), steps[1..], more);
    }
  }

  // ---------------------------------------------------------------------
  // The verb dispatcher of send

  /** Length of the leading run of `\w` characters. */
  function WordRun(s: string): (n: nat)
    ensures n <= |s|
  {
    if s == [] || !IsWordChar(s[0]) then 0 else 1 + WordRun(s[1..])
  }

  lemma {:induction false} WordRunShape(s: string)
    ensures forall i | 0 <= i < WordRun(s) :: IsWordChar(s[i])
    ensures WordRun(s) == |s| || !IsWordChar(s[WordRun(s)])
  {
    if s != [] && IsWordChar(s[0]) {
      WordRunShape(s[1..]);
    }
  }

  /** Length of the leading run of `\S` characters. */
  function NonSpaceRun(s: string): (n: nat)
    ensures n <= |s|
  {
    if s == [] || IsSpace(s[0]) then 0 else 1 + NonSpaceRun(s[1..])
  }

  lemma {:induction false} NonSpaceRunShape(s: string)
    ensures forall i | 0 <= i < NonSpaceRun(s) :: !IsSpace(s[i])
    ensures NonSpaceRun(s) == |s| || IsSpace(s[NonSpaceRun(s)])
  {
    if s != [] && !IsSpace(s[0]) {
      NonSpaceRunShape(s[1..]);
    }
  }

  /** The two groups of a match of `(\w+)\s*(\S*)`. */
  datatype Groups = Groups(word: string, arg: string)

  /** `re.match(r'(\w+)\s*(\S*)', text)`: anchored at the start, each part
      as long as possible. */
  function MatchCommand(text: string): Option<Groups> {
    var w := WordRun(text);
    if w == 0 then None
    else
      var after := text[w..];
      var g := LeadingSpaces(after);
      Some(Groups(text[..w], after[g..][..NonSpaceRun(after[g..])]))
  }

  /** The match exists exactly when the text starts with a word character;
      then the word is the maximal leading run of word characters. */
  lemma MatchCommandWord(text: string)
    ensures MatchCommand(text).None? <==> (text == [] || !IsWordChar(text[0]))
    ensures MatchCommand(text).Some? ==>
      var w := MatchCommand(text).value.word;
      && w != [] && StartsWith(text, w)
      && (forall i | 0 <= i < |w| :: IsWordChar(w[i]))
      && (|w| == |text| || !IsWordChar(text[|w|]))
  {
    WordRunShape(text);
  }

  /** In the text after the word, the argument is the maximal run of
      non-space characters after the leading whitespace. */
  lemma MatchCommandArgument(text: string)
    requires MatchCommand(text).Some?
    ensures var m := MatchCommand(text).value;
      && |m.word| <= |text|
      && var after := text[|m.word|..];
         var g := LeadingSpaces(after);
         && g + |m.arg| <= |after|
         && (forall i | 0 <= i < g :: IsSpace(after[i]))
         && (g == |after| || !IsSpace(after[g]))
         && after[g..g + |m.arg|] == m.arg
         && (forall i | 0 <= i < |m.arg| :: !IsSpace(m.arg[i]))
         && (g + |m.arg| == |after| || IsSpace(after[g + |m.arg|]))
  {
    var after := text[WordRun(text)..];
    LeadingSpacesShape(after);
    NonSpaceRunShape(after[LeadingSpaces(after)..]);
  }

  /** The four built-in verbs, `support_excmds`. */
  datatype Verb = Ls | Rm | Cat | Touch

  function VerbName(v: Verb): string {
    match v
    case Ls => "ls"
    case Rm => "rm"
    case Cat => "cat"
    case Touch => "touch"
  }

  /** `support_excmds.get(word)`. */
  function VerbNamed(word: string): Option<Verb> {
    if word == "ls" then Some(Ls)
    else if word == "rm" then Some(Rm)
    else if word == "cat" then Some(Cat)
    else if word == "touch" then Some(Touch)
    else None
  }

  datatype Route = Builtin(verb: Verb, arg: string) | PassThrough

  /** Where `send` directs a line of input. */
  function RouteOf(text: string): Route {
    match MatchCommand(text)
    case None => PassThrough
    case Some(groups) =>
      match VerbNamed(groups.word)
      case Some(v) => Builtin(v, groups.arg)
      case None => PassThrough
  }

  /** Every verb's name is a word. */
  lemma VerbNameIsWord(v: Verb)
    ensures VerbName(v) != [] && forall i | 0 <= i < |VerbName(v)| :: IsWordChar(VerbName(v)[i])
  {
    match v
    case Ls => assert VerbName(v) == ['l', 's'];
    case Rm => assert VerbName(v) == ['r', 'm'];
    case Cat => assert VerbName(v) == ['c', 'a', 't'];
    case Touch => assert VerbName(v) == ['t', 'o', 'u', 'c', 'h'];
  }

  /** Each verb has exactly one name. */
  lemma VerbNamedInverse(word: string, v: Verb)
    ensures VerbNamed(word) == Some(v) <==> word == VerbName(v)
  {
  }

  /** A line runs a built-in exactly when it starts with the verb's name and
      the name is not followed by another word character. */
  lemma RouteBuiltinIff(text: string, v: Verb)
    ensures RouteOf(text).Builtin? && RouteOf(text).verb == v
        <==> StartsWith(text, VerbName(v))
             && (|text| == |VerbName(v)| || !IsWordChar(text[|VerbName(v)|]))
  {
    var name := VerbName(v);
    var w := WordRun(text);
    if RouteOf(text).Builtin? && RouteOf(text).verb == v {
      WordRunShape(text);
      var word := MatchCommand(text).value.word;
      assert word == text[..w];
      VerbNamedInverse(word, v);
    }
    if StartsWith(text, name) && (|text| == |name| || !IsWordChar(text[|name|])) {
      assert forall i | 0 <= i < |name| :: IsWordChar(name[i]);
      forall i | 0 <= i < |name| ensures IsWordChar(text[i]) {
        assert text[i] == text[..|name|][i];
      }
      WordRunMaximal(text, |name|);
      assert MatchCommand(text).value.word == name;
      VerbNamedInverse(name, v);
    }
  }

  /** A word-character prefix followed by a non-word character or the end
      is the whole leading word run. */
  lemma {:induction false} WordRunMaximal(s: string, n: nat)
    requires n <= |s|
    requires forall i | 0 <= i < n :: IsWordChar(s[i])
    requires n == |s| || !IsWordChar(s[n])
    ensures WordRun(s) == n
  {
    if n > 0 {
      WordRunMaximal(s[1..], n - 1);
    }
  }

  /** A non-space prefix followed by a space or the end is the whole
      leading non-space run. */
  lemma {:induction false} NonSpaceRunMaximal(s: string, n: nat)
    requires n <= |s|
    requires forall i | 0 <= i < n :: !IsSpace(s[i])
    requires n == |s| || IsSpace(s[n])
    ensures NonSpaceRun(s) == n
  {
    if n > 0 {
      NonSpaceRunMaximal(s[1..], n - 1);
    }
  }

  /** A word alone is matched with an empty argument. */
  lemma MatchBareWord(word: string)
    requires word != [] && forall i | 0 <= i < |word| :: IsWordChar(word[i])
    ensures MatchCommand(word) == Some(Groups(word, ""))
  {
    WordRunMaximal(word, |word|);
    assert word[..|word|] == word;
  }

  /** A verb's name alone runs that verb with an empty argument, as a bare
      `ls` runs the listing. */
  lemma RouteBareVerb(v: Verb)
    ensures RouteOf(VerbName(v)) == Builtin(v, "")
  {
    VerbNameIsWord(v);
    MatchBareWord(VerbName(v));
    VerbNamedInverse(VerbName(v), v);
  }

  /** After one space, a non-empty space-free argument is taken whole up to
      the whitespace or the end that follows it. */
  lemma ArgumentAfterSpace(arg: string, rest: string)
    requires arg != [] && forall i | 0 <= i < |arg| :: !IsSpace(arg[i])
    requires rest == [] || IsSpace(rest[0])
    ensures var after := " " + arg + rest;
      after[LeadingSpaces(after)..][..NonSpaceRun(after[LeadingSpaces(after)..])] == arg
  {
    var after := " " + arg + rest;
    assert after[1] == arg[0];
    assert LeadingSpaces(after) == 1;
    var tail := arg + rest;
    assert after[1..] == tail;
    assert forall i | 0 <= i < |arg| :: tail[i] == arg[i];
    NonSpaceRunMaximal(tail, |arg|);
    assert tail[..|arg|] == arg;
  }

  /** A word, a space and a non-empty space-free argument are matched as
      those two groups, whatever follows a further space. */
  lemma MatchWordThenArgument(word: string, arg: string, rest: string)
    requires word != [] && forall i | 0 <= i < |word| :: IsWordChar(word[i])
    requires arg != [] && forall i | 0 <= i < |arg| :: !IsSpace(arg[i])
    requires rest == [] || IsSpace(rest[0])
    ensures MatchCommand(word + " " + arg + rest) == Some(Groups(word, arg))
  {
    var t := word + " " + arg + rest;
    assert t[..|word|] == word;
    assert t[|word|..] == " " + arg + rest;
    assert forall i | 0 <= i < |word| :: t[i] == word[i];
    WordRunMaximal(t, |word|);
    ArgumentAfterSpace(arg, rest);
  }

  /** A verb's name, a space and a space-free argument run that verb on
      that argument, as `cat init.lua` shows that file. */
  lemma RouteVerbWithArgument(v: Verb, arg: string, rest: string)
    requires arg != [] && forall i | 0 <= i < |arg| :: !IsSpace(arg[i])
    requires rest == [] || IsSpace(rest[0])
    ensures RouteOf(VerbName(v) + " " + arg + rest) == Builtin(v, arg)
  {
    var name := VerbName(v);
    VerbNameIsWord(v);
    MatchWordThenArgument(name, arg, rest);
    VerbNamedInverse(name, v);
  }

  /** A line whose leading word is no verb's name passes through. */
  lemma RouteOtherWord(word: string, rest: string)
    requires word != [] && forall i | 0 <= i < |word| :: IsWordChar(word[i])
    requires VerbNamed(word) == None
    requires rest == [] || !IsWordChar(rest[0])
    ensures RouteOf(word + rest) == PassThrough
  {
    var t := word + rest;
    assert forall i | 0 <= i < |word| :: t[i] == word[i];
    WordRunMaximal(t, |word|);
    assert t[..|word|] == word;
  }

  /** A Lua statement passes through unchanged. */
  lemma RouteStatementExample()
    ensures RouteOf("print" + "(1+1)") == PassThrough
  {
    assert "print" == ['p', 'r', 'i', 'n', 't'];
    RouteOtherWord("print", "(1+1)");
  }

  /** A word that only begins with a verb's name passes through. */
  lemma RouteLongerWordExample()
    ensures RouteOf("lsx") == PassThrough
  {
    assert "lsx" == ['l', 's', 'x'];
    RouteOtherWord("lsx", "");
    assert "lsx" + "" == "lsx";
  }

  /** A verb's name followed by a letter beyond ASCII is one longer word,
      so `touché` is written through rather than run as `touch`. */
  lemma RouteAccentedWordExample()
    ensures RouteOf("touch" + "\U{E9}") == PassThrough
  {
    var w := "touch" + "\U{E9}";
    assert w == ['t', 'o', 'u', 'c', 'h', '\U{E9}'];
    assert IsWordChar('\U{E9}');
    RouteOtherWord(w, "");
    assert w + "" == w;
  }

  /** A Lua assignment to a variable named like a verb is taken for that
      verb, with the argument `=`. */
  lemma RouteAssignmentExample()
    ensures RouteOf("cat = 1") == Builtin(Cat, "=")
  {
    RouteVerbWithArgument(Cat, "=", " 1");
    assert VerbName(Cat) + " " + "=" + " 1" == "cat = 1";
  }

  // ---------------------------------------------------------------------
  // The scripts of the built-in verbs

  const ListCommand: string := "for k,v in pairs(file.list()) do print(k,v) end"
  const CantOpenText: string := "can`t open this file\n"
  const PromptText: string := "\n> "

  /** The `_command` calls of `_ls`, `_cat`, `_rm` and `_touch`. */
  function VerbSteps(v: Verb, file: string): seq<Step> {
    match v
    case Ls => [Step(ListCommand, "", true)]
    case Cat => [Step("=file.open(\"" + file + "\")", "true", false),
                 Step("=file.read()", "", true),
                 Step("=file.close()", "", false)]
    case Rm => [Step("=file.remove(\"" + file + "\")", "", false)]
    case Touch => [Step("=file.open(\"" + file + "\",\"w\")", "true", false),
                   Step("=file.close()", "", false)]
  }

  /** What a routine puts on the message queue after its commands. */
  function VerbTail(v: Verb, o: Outcome): seq<string> {
    match v
    case Ls => []
    case Cat => if o.Failed? then [CantOpenText] else []
    case Rm => if o.Done? then [PromptText] else []
    case Touch => if o.Done? then [PromptText] else []
  }

  /** The error a routine lets escape to `send`; `_cat` catches its own. */
  function VerbRaises(v: Verb, o: Outcome): Outcome {
    if v == Cat then Done else o
  }

  /** The messages of a built-in handled by `send`: the echoed replies, the
      routine's own lines, then the text of an error that escaped it. */
  function BuiltinMessages(v: Verb, r: Run): seq<string> {
    r.shown + VerbTail(v, r.outcome)
      + (if VerbRaises(v, r.outcome).Failed? then [FailureText(r.outcome.failure)] else [])
  }

  /** `touch` ends with the prompt exactly when both exchanges succeed, and
      otherwise reports the error of the first one that failed. */
  lemma TouchReport(chunks: seq<Chunk>, file: string)
    ensures var r := RunScript(chunks, VerbSteps(Touch, file));
      && |r.sent| <= 2
      && (r.outcome.Done? ==> |r.sent| == 2 && BuiltinMessages(Touch, r) == r.shown + [PromptText])
      && (r.outcome.Failed? ==> BuiltinMessages(Touch, r) == r.shown + [FailureText(r.outcome.failure)])
  {
    ScriptSends(Exchange, chunks, VerbSteps(Touch, file));
  }

  /** Whatever happens, `cat` raises nothing and on any failure shows the
      one line saying it cannot open the file. */
  lemma CatReport(chunks: seq<Chunk>, file: string)
    ensures var r := RunScript(chunks, VerbSteps(Cat, file));
      BuiltinMessages(Cat, r) == r.shown + (if r.outcome.Failed? then [CantOpenText] else [])
  {
  }

  // ---------------------------------------------------------------------
  // The upload script

  /** The line boundaries of `str.splitlines`, at which the reader of a
      file opened with `codecs.open` ends a line. */
  predicate IsLineBreak(c: char) {
    c == '\n' || c == '\r' || c == '\U{0B}' || c == '\U{0C}' || ('\U{1C}' <= c <= '\U{1E}')
    || c == '\U{85}' || c == '\U{2028}' || c == '\U{2029}'
  }

  /** `line` ends in a line break. */
  predicate EndsInBreak(line: string) {
    line != [] && IsLineBreak(line[|line| - 1])
  }

  /** No line break inside `line` but its last character, or its last two
      when they are "\r\n": one line as `readline` returns it. */
  predicate OneLine(line: string) {
    forall i | 0 <= i < |line| - 1 :: IsLineBreak(line[i]) ==> i == |line| - 2 && line[i] == '\r' && line[i + 1] == '\n'
  }

  /** The end of the line that `readline` returns from position `pos`: one
      past the first line break ("\r\n" counting as one), or the end of
      the text. */
  function LineEnd(text: string, pos: nat): (e: nat)
    requires pos <= |text|
    ensures pos <= e <= |text|
    ensures pos < |text| ==> pos < e
    ensures OneLine(text[pos..e])
    ensures e == |text| || EndsInBreak(text[pos..e])
    ensures pos < e && text[e - 1] == '\r' ==> e == |text| || text[e] != '\n'
    decreases |text| - pos
  {
    if pos == |text| then pos
    else if text[pos] == '\r' && pos + 1 < |text| && text[pos + 1] == '\n' then pos + 2
    else if IsLineBreak(text[pos]) then pos + 1
    else
      var e := LineEnd(text, pos + 1);
      assert text[pos..e] == [text[pos]] + text[pos + 1..e];
      e
  }

  /** `f.readline()` at offset `pos`; it is empty exactly at the end. */
  function ReadLine(text: string, pos: nat): (line: string)
    requires pos <= |text|
    ensures line == [] <==> pos == |text|
  {
    text[pos..LineEnd(text, pos)]
  }

  /** The lines that successive `readline` calls return from `pos` on. */
  function Lines(text: string, pos: nat): seq<string>
    requires pos <= |text|
    decreases |text| - pos
  {
    if pos == |text| then [] else [ReadLine(text, pos)] + Lines(text, LineEnd(text, pos))
  }

  function Concat(lines: seq<string>): string {
    if lines == [] then [] else lines[0] + Concat(lines[1..])
  }

  /** The lines put together give back the file: nothing is lost or
      reordered. */
  lemma {:induction false} LinesCoverText(text: string, pos: nat)
    requires pos <= |text|
    ensures Concat(Lines(text, pos)) == text[pos..]
    decreases |text| - pos
  {
    if pos < |text| {
      var e := LineEnd(text, pos);
      LinesCoverText(text, e);
      assert text[pos..] == text[pos..e] + text[e..];
    }
  }

  /** The lines are those of `str.splitlines(keepends=True)`: none is
      empty, each holds one line break at most, at its end, every line but
      the last ends in one, and a line that ends in "\r" is not followed by
      one that starts with "\n", which would have belonged to it. */
  lemma {:induction false} LinesAreLines(text: string, pos: nat)
    requires pos <= |text|
    ensures var ls := Lines(text, pos);
      && (forall k | 0 <= k < |ls| :: ls[k] != [] && OneLine(ls[k]))
      && (forall k | 0 <= k < |ls| - 1 :: EndsInBreak(ls[k]))
      && (forall k | 0 <= k < |ls| - 1 :: ls[k][|ls[k]| - 1] == '\r' ==> ls[k + 1][0] != '\n')
    decreases |text| - pos
  {
    if pos < |text| {
      var e := LineEnd(text, pos);
      LinesAreLines(text, e);
      var ls := Lines(text, pos);
      assert ls[1..] == Lines(text, e);
      assert ls[0] == text[pos..e];
      if e < |text| {
        assert ls[1][0] == text[e];
      }
    }
  }

  /** A line runs to its first line break, which takes the "\n" after a
      "\r" with it. */
  lemma {:induction false} LineEndAtBreak(text: string, pos: nat, e: nat)
    requires pos < e <= |text|
    requires forall i | pos <= i < e - 1 :: !IsLineBreak(text[i])
    requires IsLineBreak(text[e - 1]) && text[e - 1] != '\r'
    ensures LineEnd(text, pos) == (if e - 1 > pos && text[e - 2] == '\r' then e - 1 else e)
    decreases e - pos
  {
    if pos < e - 1 {
      LineEndAtBreak(text, pos + 1, e);
    }
  }

  /** A line ended by a carriage return that no newline follows. */
  lemma {:induction false} LineEndAtReturn(text: string, pos: nat, e: nat)
    requires pos < e <= |text|
    requires forall i | pos <= i < e - 1 :: !IsLineBreak(text[i])
    requires text[e - 1] == '\r' && (e == |text| || text[e] != '\n')
    ensures LineEnd(text, pos) == e
    decreases e - pos
  {
    if pos < e - 1 {
      LineEndAtReturn(text, pos + 1, e);
    }
  }

  /** A carriage return alone ends a line. */
  lemma CarriageReturnEndsLine()
    ensures Lines("--old\r" + "print(1)\n", 0) == ["--old\r", "print(1)\n"]
  {
    var t := "--old\r" + "print(1)\n";
    assert t == ['-', '-', 'o', 'l', 'd', '\r', 'p', 'r', 'i', 'n', 't', '(', '1', ')', '\n'];
    LineEndAtReturn(t, 0, 6);
    LineEndAtBreak(t, 6, 15);
    assert Lines(t, 15) == [];
    assert t[0..6] == "--old\r" && t[6..15] == "print(1)\n";
  }

  /** So a comment line ended by a carriage return is skipped, and the
      statement after it is written. */
  lemma CarriageReturnEndsComment()
    ensures WriteSteps(Lines("--old\r" + "print(1)\n", 0)) == [Step(WriteLineCommand("print(1)\n"), "", true)]
  {
    CarriageReturnEndsLine();
    assert "--old\r"[..2] == "--";
    assert "print(1)\n"[..2] == "pr";
    assert ["--old\r", "print(1)\n"][1..] == ["print(1)\n"];
    assert ["print(1)\n"][1..] == [];
  }

  /** A form feed ends a line too. */
  lemma FormFeedEndsLine()
    ensures Lines("a=1\U{0C}" + "b=2\n", 0) == ["a=1\U{0C}", "b=2\n"]
  {
    var t := "a=1\U{0C}" + "b=2\n";
    assert t == ['a', '=', '1', '\U{0C}', 'b', '=', '2', '\n'];
    LineEndAtBreak(t, 0, 4);
    LineEndAtBreak(t, 4, 8);
    assert Lines(t, 8) == [];
    assert t[0..4] == "a=1\U{0C}" && t[4..8] == "b=2\n";
  }

  /** A line the upload skips: it starts with the Lua comment marker. */
  predicate IsComment(line: string) {
    StartsWith(line, "--")
  }

  function WriteLineCommand(line: string): string {
    "file.writeline([==[" + Strip(line) + "]==])"
  }

  /** One write-line call per line that is not a comment, in file order. */
  function WriteSteps(lines: seq<string>): seq<Step> {
    if lines == [] then []
    else
      (if IsComment(lines[0]) then [] else [Step(WriteLineCommand(lines[0]), "", true)])
      + WriteSteps(lines[1..])
  }

  lemma {:induction false} WriteStepsAppend(a: seq<string>, b: seq<string>)
    ensures WriteSteps(a + b) == WriteSteps(a) + WriteSteps(b)
  {
    if a == [] {
      assert a + b == b;
    } else {
      assert (a + b)[0] == a[0] && (a + b)[1..] == a[1..] + b;
      WriteStepsAppend(a[1..], b);
    }
  }

  /** A file of comments only is written with no write-line call. */
  lemma {:induction false} CommentsWriteNothing(lines: seq<string>)
    requires forall k | 0 <= k < |lines| :: IsComment(lines[k])
    ensures WriteSteps(lines) == []
  {
    if lines != [] {
      CommentsWriteNothing(lines[1..]);
    }
  }

  function OpenForWrite(name: string): string {
    "=file.open('" + name + "','w')"
  }

  /** The commands before and after the file's lines in `_upload_task`. */
  function UploadHead(name: string): seq<Step> {
    [Step("file.close()", "", true), Step(OpenForWrite(name), "true", true)]
  }

  const UploadTail: seq<Step> := [Step("file.flush()", "", true), Step("file.close()", "", true)]

  /** The whole upload script of a file named `name` with contents `text`. */
  function UploadSteps(name: string, text: string): seq<Step> {
    UploadHead(name) + WriteSteps(Lines(text, 0)) + UploadTail
  }

  /** What `readline` delivers from a file opened with `codecs.open(path,
      'r', 'utf-8')`: the decoded `text`, line by line, and after it, for a
      file that is not valid UTF-8, the `UnicodeDecodeError` whose message
      is `fault`. */
  datatype FileText = FileText(text: string, fault: Option<string>)

  /** The body of the `try` in `_upload_task` on `file`: the upload script,
      where a decoding error raised by `readline` after the decoded lines
      ends it before the flush and the close. */
  function UploadRun(chunks: seq<Chunk>, name: string, file: FileText): Run {
    var body := UploadHead(name) + WriteSteps(Lines(file.text, 0));
    match file.fault
    case None => RunScript(chunks, body + UploadTail)
    case Some(reason) =>
      var r := RunScript(chunks, body);
      if r.outcome.Failed? then r else r.(outcome := Failed(DecodeFailed(reason)))
  }

  /** The engine's exchanges never raise a decoding error: only reading
      the file does. */
  lemma {:induction false} ScriptNeverDecodeFails(chunks: seq<Chunk>, steps: seq<Step>)
    ensures var o := RunScript(chunks, steps).outcome;
      o.Failed? ==> !o.failure.DecodeFailed?
    decreases |steps|
  {
    if steps != [] {
      var e := Exchange(chunks, steps[0]);
      if e.outcome.Done? {
        ScriptNeverDecodeFails(DropN(chunks, e.readCount), steps[1..]);
      }
    }
  }

  /** A file that decodes runs the whole upload script. One that does not
      always fails: it writes a prefix of the commands for the lines before
      the error, never the flush or the close, and reports the decoding
      error exactly when all of those commands succeeded. */
  lemma UploadRunOutcome(chunks: seq<Chunk>, name: string, file: FileText)
    ensures file.fault.None? ==> UploadRun(chunks, name, file) == RunScript(chunks, UploadSteps(name, file.text))
    ensures file.fault.Some? ==>
      var body := UploadHead(name) + WriteSteps(Lines(file.text, 0));
      var r := UploadRun(chunks, name, file);
      && r.outcome.Failed?
      && |r.sent| <= |body| && r.sent == Framing(body[..|r.sent|])
      && (r.outcome.failure == DecodeFailed(file.fault.value) <==> RunScript(chunks, body).outcome.Done?)
      && (RunScript(chunks, body).outcome.Done? ==> r.sent == Framing(body))
  {
    var body := UploadHead(name) + WriteSteps(Lines(file.text, 0));
    ScriptSends(Exchange, chunks, body);
    ScriptNeverDecodeFails(chunks, body);
    assert body[..|body|] == body;
  }

  /** Every upload closes any open file first, opens the target for
      writing, and ends with a flush and a close; a comment-only file sends
      just those four commands. */
  lemma UploadFraming(name: string, text: string)
    ensures var s := UploadSteps(name, text);
      && |s| >= 4
      && s[0].cmd == "file.close()" && s[1] == Step(OpenForWrite(name), "true", true)
      && s[|s| - 2].cmd == "file.flush()" && s[|s| - 1].cmd == "file.close()"
      && ((forall k | 0 <= k < |Lines(text, 0)| :: IsComment(Lines(text, 0)[k])) ==> |s| == 4)
  {
    if forall k | 0 <= k < |Lines(text, 0)| :: IsComment(Lines(text, 0)[k]) {
      CommentsWriteNothing(Lines(text, 0));
    }
  }
}
