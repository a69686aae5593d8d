/**
 * The connection state machine of `SerialMonitor`: connecting and
 * disconnecting, the port and baud-rate setters, the reader loop's flag
 * logic, `_command`, the four built-in routines, `send` and the upload task.
 *
 * Each operation is a function on `Conn`, the whole observable state (the
 * monitor's flags and fields, the link's settings, its supply of read
 * results, its write log and the message queue), and a method of `Monitor`
 * that changes the fields in place and is proved to agree with that
 * function. What the source promises is proved about the functions.
 *
 * The reader thread is modelled by its liveness flag and by `readers`, the
 * number of reader loops running; the results of `open` are parameters.
 */
module SerialMonitor {
  import opened Wrappers
  import opened Text
  import opened SerialProtocol

  /** The baud rate `SerialMonitor.__init__` starts with. */
  const DefaultBaudrate: nat := 115200

  /** The truth value of a port setting in Python: set and not empty. */
  predicate PortSet(p: Option<string>) {
    p.Some? && p.value != []
  }

  /** `"%s" % port`. */
  function PortText(p: Option<string>): string {
    if p.Some? then p.value else "None"
  }

  function ConnectedText(port: Option<string>, baud: nat): string {
    "Success connect Port:\"" + PortText(port) + "\" Baudrate:" + Decimal(baud) + "! Press F1 to Disconnet\n> "
  }

  function DisconnectedText(port: Option<string>): string {
    "Disconnect Port:\"" + PortText(port) + "\"! Press F1 to Connect\n"
  }

  // ---------------------------------------------------------------------
  // The observable state and the operations on it

  /** The monitor (`ready`, `alive`, `readers`, `port`, `baudrate`,
      `messages`) and its link (`linkPort`, `linkBaud`, `linkOpen`, the read
      results still to come and what was written). */
  datatype Conn = Conn(
    ready: bool, alive: bool, readers: nat,
    port: Option<string>, baudrate: nat,
    linkPort: Option<string>, linkBaud: nat, linkOpen: bool,
    incoming: seq<Chunk>, written: seq<string>, messages: seq<string>)

  /** The invariant between public calls: one reader runs exactly while the
      flag is set, the flag is set exactly while connected, the link is open
      exactly while connected, and a connected monitor's settings are those
      of its link. */
  predicate Coherent(c: Conn) {
    && c.readers == (if c.alive then 1 else 0)
    && c.ready == c.alive
    && c.linkOpen == c.ready
    && (c.ready ==> c.port == c.linkPort && c.baudrate == c.linkBaud && PortSet(c.port) && c.baudrate != 0)
  }

  /** The state of a new monitor on a link whose reads will return `incoming`. */
  function Initial(incoming: seq<Chunk>): Conn {
    Conn(false, false, 0, None, DefaultBaudrate, None, DefaultBaudrate, false, incoming, [], [])
  }

  /** `_start_read_thread`: a reader is started only when the flag is clear. */
  function ThreadStarted(c: Conn): Conn {
    if c.alive then c else c.(alive := true, readers := c.readers + 1)
  }

  /** `_stop_read_thread`: clearing the flag ends every reader loop, and the
      call waits for the reader to finish. */
  function ThreadStopped(c: Conn): Conn {
    if c.alive then c.(alive := false, readers := 0) else c
  }

  /** The `else` branch of `start` after a successful open. */
  function Connected(c: Conn, log: bool): Conn {
    var d := c.(ready := true, port := c.linkPort, baudrate := c.linkBaud, linkOpen := true);
    var e := if !d.alive then ThreadStarted(d) else d;
    e.(messages := e.messages + if log then [ConnectedText(c.linkPort, c.linkBaud)] else [])
  }

  /** The message of pyserial's `SerialException` when `open()` is called
      on a port that is open already. */
  const AlreadyOpenText: string := "Port is already open."

  /** What the first `open` of `_check_ready` raises: `first`, the fault
      the device gives, on a closed link, and `AlreadyOpenText` on an open
      one. */
  function FirstOpen(c: Conn, first: Option<string>): Option<string> {
    if c.linkOpen then Some(AlreadyOpenText) else first
  }

  /** `start(log)`. `first` is the error the first `open` raises on a closed
      link, `retry` the error of the second one after `_ser_init`, `None`
      for success. */
  function Started(c: Conn, first: Option<string>, retry: Option<string>, log: bool): Conn {
    if c.ready || !PortSet(c.linkPort) || c.linkBaud == 0 then c
    else match FirstOpen(c, first)
      case None => Connected(c.(linkOpen := true), log)
      case Some(error) =>
        if PortSet(c.port) && c.baudrate != 0 then
          var renewed := c.(linkPort := c.port, linkBaud := c.baudrate, linkOpen := false);
          match retry
          case None => Connected(renewed, log)
          case Some(again) => renewed.(messages := c.messages + [again])
        else c.(messages := c.messages + [error])
  }

  /** `stop(log)`. */
  function Stopped(c: Conn, log: bool): Conn {
    if !c.ready then c
    else
      var d := ThreadStopped(c.(ready := false));
      d.(linkOpen := false, messages := d.messages + if log then [DisconnectedText(c.port)] else [])
  }

  /** The `port` setter. */
  function PortChanged(c: Conn, p: Option<string>, first: Option<string>, retry: Option<string>): Conn {
    if p == c.port then c else Started(Stopped(c, true).(linkPort := p), first, retry, true)
  }

  /** The `baudrate` setter. */
  function BaudChanged(c: Conn, b: nat, first: Option<string>, retry: Option<string>): Conn {
    if b == c.baudrate then c else Started(Stopped(c, true).(linkBaud := b), first, retry, true)
  }

  /** One pass of the reader loop `_run` as written: a failed read ends
      the loop and disconnects the monitor, but leaves the link open. */
  function ReaderStepAsWritten(c: Conn): Conn {
    var rest := DropN(c.incoming, 1);
    match ReadAt(c.incoming, 0)
    case ReadFault(reason) =>
      c.(incoming := rest, alive := false, readers := 0, ready := false, port := None,
         messages := c.messages + [reason + "\n"])
    case Bytes(d) =>
      c.(incoming := rest, messages := c.messages + if d != [] then [Data2Str(d)] else [])
  }

  /** One pass of the reader loop, with the link closed after a failed read
      as `stop` would close it, so that a later `start` can open it again. */
  function ReaderStep(c: Conn): Conn {
    var d := ReaderStepAsWritten(c);
    if ReadAt(c.incoming, 0).ReadFault? then d.(linkOpen := false) else d
  }

  /** `n` passes of the reader loop, which ends once the flag is clear. */
  function ReadFor(c: Conn, n: nat): Conn {
    if n == 0 then c
    else
      var d := ReadFor(c, n - 1);
      if d.alive then ReaderStep(d) else d
  }

  /** The effect of a run of exchanges on the link and the message queue. */
  function Applied(c: Conn, r: Run): Conn {
    c.(incoming := DropN(c.incoming, r.readCount), written := c.written + r.sent,
       messages := c.messages + r.shown)
  }

  /** A built-in routine: its exchanges, then the lines it adds itself. */
  function AfterVerb(c: Conn, v: Verb, arg: string): Conn {
    var r := RunScript(c.incoming, VerbSteps(v, arg));
    var a := Applied(c, r);
    a.(messages := a.messages + VerbTail(v, r.outcome))
  }

  /** A built-in verb as `send` runs it: with the reader stopped, which
      restarts afterwards whatever happened. */
  function Handled(c: Conn, v: Verb, arg: string): Conn {
    var d := ThreadStopped(c);
    var r := RunScript(d.incoming, VerbSteps(v, arg));
    var a := AfterVerb(d, v, arg);
    var raised := VerbRaises(v, r.outcome);
    ThreadStarted(a.(messages := a.messages + if raised.Failed? then [FailureText(raised.failure)] else []))
  }

  /** `send(text)`. */
  function Sent(c: Conn, text: string): Conn {
    if !c.ready then c
    else match RouteOf(text)
      case PassThrough => c.(written := c.written + [text + Terminator])
      case Builtin(v, arg) => Handled(c, v, arg)
  }

  /** The end of a task run with the reader stopped: the reader restarts
      and the error that ended the run, if any, is shown. */
  function AfterTask(c: Conn, r: Run): Conn {
    var a := Applied(ThreadStopped(c), r);
    ThreadStarted(a.(messages := a.messages + if r.outcome.Failed? then [FailureText(r.outcome.failure)] else []))
  }

  /** `_upload_task(path)`; `contents` is what reading the file delivers,
      `None` when it cannot be opened. */
  function Uploaded(c: Conn, path: string, contents: Option<FileText>): Conn {
    if !c.ready || contents.None? then c
    else AfterTask(c, UploadRun(c.incoming, Basename(path), contents.value))
  }

  // ---------------------------------------------------------------------
  // What the operations promise

  /** `start` does nothing when connected already or when the link's port
      or baud rate is unset. */
  lemma StartIgnored(c: Conn, first: Option<string>, retry: Option<string>, log: bool)
    requires c.ready || !PortSet(c.linkPort) || c.linkBaud == 0
    ensures Started(c, first, retry, log) == c
  {
  }

  /** Otherwise `start` connects exactly when the first open succeeds, or
      it fails, the monitor had a port and baud rate of its own and the
      second open on those succeeds. Connected, the monitor takes the link's
      settings and announces them when `log` is set; not connected, it
      reports the error of the last open and keeps its flags and fields. */
  lemma StartOutcome(c: Conn, first: Option<string>, retry: Option<string>, log: bool)
    requires !c.ready && PortSet(c.linkPort) && c.linkBaud != 0
    ensures var s := Started(c, first, retry, log);
      var firstError := FirstOpen(c, first);
      var retried := firstError.Some? && PortSet(c.port) && c.baudrate != 0;
      && (s.ready <==> firstError.None? || (retried && retry.None?))
      && (s.ready ==>
            && s.linkOpen && s.alive && s.port == s.linkPort && s.baudrate == s.linkBaud
            && (firstError.None? ==> s.port == c.linkPort && s.baudrate == c.linkBaud)
            && (firstError.Some? ==> s.port == c.port && s.baudrate == c.baudrate)
            && s.messages == c.messages + if log then [ConnectedText(s.port, s.baudrate)] else [])
      && (!s.ready ==>
            && s.alive == c.alive && s.port == c.port && s.baudrate == c.baudrate
            && s.messages == c.messages + [if retried then retry.value else firstError.value])
      && s.incoming == c.incoming && s.written == c.written
  {
  }

  /** `stop` does nothing when not connected; otherwise it clears both
      flags, closes the link and announces the port when `log` is set. */
  lemma StopOutcome(c: Conn, log: bool)
    requires Coherent(c)
    ensures !c.ready ==> Stopped(c, log) == c
    ensures c.ready ==>
      var s := Stopped(c, log);
      && !s.ready && !s.alive && s.readers == 0 && !s.linkOpen
      && s.port == c.port && s.baudrate == c.baudrate
      && s.messages == c.messages + if log then [DisconnectedText(c.port)] else []
  {
  }

  /** Setting the port or baud rate the monitor already has does nothing. */
  lemma SettersIgnoreSameValue(c: Conn, first: Option<string>, retry: Option<string>)
    ensures PortChanged(c, c.port, first, retry) == c
    ensures BaudChanged(c, c.baudrate, first, retry) == c
  {
  }

  /** A new port that opens becomes the connected port, at the baud rate
      the link had. */
  lemma NewPortConnects(c: Conn, p: Option<string>, retry: Option<string>)
    requires Coherent(c) && p != c.port && PortSet(p) && c.linkBaud != 0
    ensures var s := PortChanged(c, p, None, retry);
      s.ready && s.port == p && s.baudrate == c.linkBaud && Coherent(s)
  {
  }

  /** A new port that fails to open, while the monitor still holds a usable
      port, makes `_check_ready` reconnect to that previous port. */
  lemma FailedPortFallsBack(c: Conn, p: Option<string>, error: string)
    requires Coherent(c) && c.ready && p != c.port && PortSet(p)
    ensures var s := PortChanged(c, p, Some(error), None);
      s.ready && s.port == c.port && s.linkPort == c.port && s.baudrate == c.baudrate
  {
  }

  /** A second `_start_read_thread` starts nothing. */
  lemma ThreadStartIdempotent(c: Conn)
    ensures ThreadStarted(ThreadStarted(c)) == ThreadStarted(c)
    ensures ThreadStarted(c).alive
    ensures ThreadStarted(c).readers == if c.alive then c.readers else c.readers + 1
  {
  }

  /** A failed read ends the reader, disconnects the monitor, forgets its
      port, closes the link and reports the error on a line of its own. */
  lemma ReadFaultDisconnects(c: Conn)
    requires ReadAt(c.incoming, 0).ReadFault?
    ensures var s := ReaderStep(c);
      && !s.ready && !s.alive && s.readers == 0 && s.port.None? && !s.linkOpen
      && s.messages == c.messages + [ReadAt(c.incoming, 0).reason + "\n"]
      && s.incoming == DropN(c.incoming, 1)
  {
  }

  /** As written, a failed read strands the monitor: the link stays open,
      `stop` does nothing, and every `start` fails with pyserial's "Port is
      already open." without a retry, since the port was forgotten. */
  lemma ReadFaultStrandsAsWritten(c: Conn, first: Option<string>, retry: Option<string>, log: bool)
    requires Coherent(c) && c.ready && ReadAt(c.incoming, 0).ReadFault?
    ensures var s := ReaderStepAsWritten(c);
      && s.linkOpen && !s.ready && s.port.None?
      && Stopped(s, log) == s
      && Started(s, first, retry, log) == s.(messages := s.messages + [AlreadyOpenText])
  {
  }

  /** With the link closed after a failed read, the invariant holds and a
      `start` whose open succeeds connects again, to the same link. */
  lemma ReadFaultAllowsReconnect(c: Conn, retry: Option<string>, log: bool)
    requires Coherent(c) && c.ready && ReadAt(c.incoming, 0).ReadFault?
    ensures var s := ReaderStep(c);
      && Coherent(s) && !s.linkOpen
      && var t := Started(s, None, retry, log);
         t.ready && t.port == c.port && t.baudrate == c.baudrate && Coherent(t)
  {
    CoherentReading(c, 1);
    assert ReadFor(c, 1) == ReaderStep(c);
  }

  lemma {:induction false} ConcatSnoc(parts: seq<string>, last: string)
    ensures Concat(parts + [last]) == Concat(parts) + last
  {
    if parts == [] {
      assert parts + [last] == [last];
    } else {
      assert (parts + [last])[1..] == parts[1..] + [last];
      ConcatSnoc(parts[1..], last);
    }
  }

  /** The texts the reader puts on the queue for the first `n` reads. */
  function Shown(chunks: seq<Chunk>, n: nat): seq<string> {
    if n == 0 then []
    else
      var d := DataOf(ReadAt(chunks, n - 1));
      Shown(chunks, n - 1) + if d != [] then [Data2Str(d)] else []
  }

  /** While no read fails the reader keeps running, consumes one read per
      pass and shows the cleaned bytes of every read that returned some. */
  lemma {:induction false} ReaderRuns(c: Conn, n: nat)
    requires c.alive
    requires forall j | 0 <= j < n :: ReadAt(c.incoming, j).Bytes?
    ensures ReadFor(c, n) == c.(incoming := DropN(c.incoming, n), messages := c.messages + Shown(c.incoming, n))
  {
    if n == 0 {
      assert DropN(c.incoming, 0) == c.incoming;
      assert c.messages + [] == c.messages;
    } else {
      ReaderRuns(c, n - 1);
      var prev := ReadFor(c, n - 1);
      ReaderStepAfter(c, n, prev);
      assert ReadFor(c, n) == ReaderStep(prev);
    }
  }

  /** The pass that follows `n - 1` passes of `ReaderRuns` on reads that
      returned bytes. */
  lemma ReaderStepAfter(c: Conn, n: nat, prev: Conn)
    requires 0 < n && ReadAt(c.incoming, n - 1).Bytes?
    requires prev == c.(incoming := DropN(c.incoming, n - 1), messages := c.messages + Shown(c.incoming, n - 1))
    ensures ReaderStep(prev) == c.(incoming := DropN(c.incoming, n), messages := c.messages + Shown(c.incoming, n))
  {
    var d := DataOf(ReadAt(c.incoming, n - 1));
    var shown := if d != [] then [Data2Str(d)] else [];
    DropNRead(c.incoming, n - 1, 0);
    DropNDrop(c.incoming, n - 1, 1);
    assert ReadAt(prev.incoming, 0) == Bytes(d);
    assert ReaderStep(prev) == prev.(incoming := DropN(prev.incoming, 1), messages := prev.messages + shown);
    assert Shown(c.incoming, n) == Shown(c.incoming, n - 1) + shown;
    assert prev.messages + shown == c.messages + Shown(c.incoming, n);
  }

  /** Together the shown texts are the cleaned stream, however the link
      chunked it. */
  lemma {:induction false} ShownIsStream(chunks: seq<Chunk>, n: nat)
    ensures Concat(Shown(chunks, n)) == Data2Str(Joined(chunks, n))
  {
    if n == 0 {
      assert Data2Str([]) == [];
    } else {
      ShownIsStream(chunks, n - 1);
      var d := DataOf(ReadAt(chunks, n - 1));
      Data2StrAppend(Joined(chunks, n - 1), d);
      if d != [] {
        ConcatSnoc(Shown(chunks, n - 1), Data2Str(d));
      } else {
        assert Data2Str(d) == [];
        assert Shown(chunks, n) == Shown(chunks, n - 1);
      }
    }
  }

  /** `send` does nothing when not connected, and writes any line that is
      not a built-in verbatim with the terminator. */
  lemma SendPassThrough(c: Conn, text: string)
    ensures !c.ready ==> Sent(c, text) == c
    ensures c.ready && RouteOf(text).PassThrough? ==>
      Sent(c, text) == c.(written := c.written + [text + Terminator])
  {
  }

  /** A built-in verb runs its routine with the reader stopped and restarts
      it afterwards whatever happened; it writes what the routine's script
      writes (a prefix of its commands, by `ScriptSends`) and shows the
      routine's messages. */
  lemma SendBuiltin(c: Conn, v: Verb, arg: string)
    requires Coherent(c) && c.ready
    ensures var r := RunScript(c.incoming, VerbSteps(v, arg));
      var s := Handled(c, v, arg);
      && s.alive && s.readers == 1 && s.ready
      && s.written == c.written + r.sent
      && s.messages == c.messages + BuiltinMessages(v, r)
      && s.incoming == DropN(c.incoming, r.readCount)
  {
    var r := RunScript(c.incoming, VerbSteps(v, arg));
    var raised := VerbRaises(v, r.outcome);
    var more := if raised.Failed? then [FailureText(raised.failure)] else [];
    assert Handled(c, v, arg).messages == c.messages + r.shown + VerbTail(v, r.outcome) + more;
    assert c.messages + r.shown + VerbTail(v, r.outcome) + more == c.messages + BuiltinMessages(v, r);
  }

  /** A task run on a connected monitor leaves it connected with its one
      reader running, with the run's effect on the link and its messages. */
  lemma AfterTaskOutcome(c: Conn, r: Run)
    requires Coherent(c) && c.ready
    ensures var s := AfterTask(c, r);
      && s.alive && s.readers == 1 && s.ready && Coherent(s)
      && s.incoming == DropN(c.incoming, r.readCount)
      && s.written == c.written + r.sent
      && s.messages == c.messages + r.shown + if r.outcome.Failed? then [FailureText(r.outcome.failure)] else []
  {
  }

  /** An upload of an opened file writes a prefix of its script and always
      leaves the reader running. A file that decodes is written whole, with
      the flush and the close, when every exchange succeeds; one that does
      not never gets the flush or the close. The error that ended the run,
      the decoding error included, is shown after the run's messages. */
  lemma UploadOutcome(c: Conn, path: string, file: FileText)
    requires Coherent(c) && c.ready
    ensures var name := Basename(path);
      var body := UploadHead(name) + WriteSteps(Lines(file.text, 0));
      var steps := if file.fault.None? then UploadSteps(name, file.text) else body;
      var r := UploadRun(c.incoming, name, file);
      var s := Uploaded(c, path, Some(file));
      && s.alive && s.readers == 1 && s.ready
      && s.written == c.written + r.sent
      && |r.sent| <= |steps| && r.sent == Framing(steps[..|r.sent|])
      && (r.outcome.Done? <==> file.fault.None? && RunScript(c.incoming, steps).outcome.Done?)
      && (r.outcome.Done? ==> r.sent == Framing(steps) && s.messages == c.messages + r.shown)
      && (r.outcome.Failed? ==> s.messages == c.messages + r.shown + [FailureText(r.outcome.failure)])
      && (file.fault.Some? && RunScript(c.incoming, body).outcome.Done? ==>
            r.sent == Framing(body) && s.messages == c.messages + r.shown + [file.fault.value])
  {
    var name := Basename(path);
    var r := UploadRun(c.incoming, name, file);
    assert Uploaded(c, path, Some(file)) == AfterTask(c, r);
    if file.fault.None? {
      UploadDecodedOutcome(c, name, file);
    } else {
      UploadUndecodedOutcome(c, name, file);
    }
  }

  /** `UploadOutcome` for a file that decodes. */
  lemma UploadDecodedOutcome(c: Conn, name: string, file: FileText)
    requires Coherent(c) && c.ready && file.fault.None?
    ensures var steps := UploadSteps(name, file.text);
      var r := UploadRun(c.incoming, name, file);
      var s := AfterTask(c, r);
      && s.alive && s.readers == 1 && s.ready
      && s.written == c.written + r.sent
      && |r.sent| <= |steps| && r.sent == Framing(steps[..|r.sent|])
      && (r.outcome.Done? <==> RunScript(c.incoming, steps).outcome.Done?)
      && (r.outcome.Done? ==> r.sent == Framing(steps) && s.messages == c.messages + r.shown)
      && (r.outcome.Failed? ==> s.messages == c.messages + r.shown + [FailureText(r.outcome.failure)])
  {
    var steps := UploadSteps(name, file.text);
    var r := UploadRun(c.incoming, name, file);
    UploadRunOutcome(c.incoming, name, file);
    assert r == RunScript(c.incoming, steps);
    AfterTaskOutcome(c, r);
    ScriptSends(Exchange, c.incoming, steps);
    assert steps[..|steps|] == steps;
  }

  /** `UploadOutcome` for a file that does not decode. */
  lemma UploadUndecodedOutcome(c: Conn, name: string, file: FileText)
    requires Coherent(c) && c.ready && file.fault.Some?
    ensures var body := UploadHead(name) + WriteSteps(Lines(file.text, 0));
      var r := UploadRun(c.incoming, name, file);
      var s := AfterTask(c, r);
      && s.alive && s.readers == 1 && s.ready
      && s.written == c.written + r.sent
      && |r.sent| <= |body| && r.sent == Framing(body[..|r.sent|])
      && r.outcome.Failed?
      && s.messages == c.messages + r.shown + [FailureText(r.outcome.failure)]
      && (RunScript(c.incoming, body).outcome.Done? ==>
            r.sent == Framing(body) && s.messages == c.messages + r.shown + [file.fault.value])
  {
    var r := UploadRun(c.incoming, name, file);
    UploadRunOutcome(c.incoming, name, file);
    AfterTaskOutcome(c, r);
  }

  /** Nothing happens when the monitor is not connected or the file cannot
      be opened. */
  lemma UploadIgnored(c: Conn, path: string, contents: Option<FileText>)
    requires !c.ready || contents.None?
    ensures Uploaded(c, path, contents) == c
  {
  }

  /** Every public operation keeps the invariant: in particular there is
      never more than one reader. */
  lemma CoherentStarted(c: Conn, first: Option<string>, retry: Option<string>, log: bool)
    requires Coherent(c)
    ensures Coherent(Started(c, first, retry, log))
  {
    if !c.ready && PortSet(c.linkPort) && c.linkBaud != 0 && first.Some? {
      if PortSet(c.port) && c.baudrate != 0 {
        var renewed := c.(linkPort := c.port, linkBaud := c.baudrate, linkOpen := false);
        assert Coherent(renewed);
      }
    }
  }

  lemma CoherentStopped(c: Conn, log: bool)
    requires Coherent(c)
    ensures Coherent(Stopped(c, log)) && !Stopped(c, log).ready
  {
  }

  lemma CoherentChanged(c: Conn, p: Option<string>, b: nat, first: Option<string>, retry: Option<string>)
    requires Coherent(c)
    ensures Coherent(PortChanged(c, p, first, retry))
    ensures Coherent(BaudChanged(c, b, first, retry))
  {
    CoherentStopped(c, true);
    CoherentStarted(Stopped(c, true).(linkPort := p), first, retry, true);
    CoherentStarted(Stopped(c, true).(linkBaud := b), first, retry, true);
  }

  lemma CoherentSent(c: Conn, text: string)
    requires Coherent(c)
    ensures Coherent(Sent(c, text))
  {
  }

  lemma CoherentUploaded(c: Conn, path: string, contents: Option<FileText>)
    requires Coherent(c)
    ensures Coherent(Uploaded(c, path, contents))
  {
  }

  lemma {:induction false} CoherentReading(c: Conn, n: nat)
    requires Coherent(c)
    ensures Coherent(ReadFor(c, n))
  {
    if n > 0 {
      CoherentReading(c, n - 1);
    }
  }

  // ---------------------------------------------------------------------
  // Composing exchanges

  lemma AppliedNothing(c: Conn)
    ensures Applied(c, NoRun) == c
  {
    assert DropN(c.incoming, 0) == c.incoming;
  }

  lemma AppliedExtend(c: Conn, r: Run, step: Step, e: Exchanged)
    ensures Applied(Applied(c, r), Extend(NoRun, step, e)) == Applied(c, Extend(r, step, e))
  {
    var x := Applied(Applied(c, r), Extend(NoRun, step, e));
    var y := Applied(c, Extend(r, step, e));
    DropNDrop(c.incoming, r.readCount, e.readCount);
    assert x.incoming == y.incoming;
    assert x.written == y.written by {
      assert c.written + r.sent + [Framed(step.cmd)] == c.written + (r.sent + [Framed(step.cmd)]);
    }
    assert x.messages == y.messages by {
      assert c.messages + r.shown + e.shown == c.messages + (r.shown + e.shown);
    }
  }

  /** One more exchange after a script that succeeded so far extends the
      script's run. */
  lemma ExchangeExtends(c: Conn, a: Conn, steps: seq<Step>, step: Step)
    requires RunScript(c.incoming, steps).outcome.Done?
    requires a == Applied(c, RunScript(c.incoming, steps))
    ensures Applied(a, Extend(NoRun, step, Exchange(a.incoming, step)))
         == Applied(c, RunScript(c.incoming, steps + [step]))
    ensures Exchange(a.incoming, step).outcome == RunScript(c.incoming, steps + [step]).outcome
  {
    var r := RunScript(c.incoming, steps);
    ScriptSnoc(Exchange, c.incoming, steps, step);
    AppliedExtend(c, r, step, Exchange(a.incoming, step));
  }

  // ---------------------------------------------------------------------
  // The link and the monitor

  /** The serial port: its settings, whether it is open, the results its
      reads will return and the log of what was written. */
  class SerialLink {
    var port: Option<string>
    var baudrate: nat
    var isOpen: bool
    var incoming: seq<Chunk>
    var written: seq<string>

    constructor (port: Option<string>, baudrate: nat, incoming: seq<Chunk>)
      ensures this.port == port && this.baudrate == baudrate && !isOpen
      ensures this.incoming == incoming && written == []
    {
      this.port := port;
      this.baudrate := baudrate;
      isOpen := false;
      this.incoming := incoming;
      written := [];
    }

    /** `open()`: on an open port it raises "Port is already open.";
        otherwise `fault` is the error it raises, if any. */
    method Open(fault: Option<string>) returns (error: Option<string>)
      modifies this`isOpen
      ensures error == (if old(isOpen) then Some(AlreadyOpenText) else fault)
      ensures isOpen == (old(isOpen) || fault.None?)
    {
      if isOpen {
        error := Some(AlreadyOpenText);
      } else {
        error := fault;
        if fault.None? {
          isOpen := true;
        }
      }
    }

    method Close()
      modifies this`isOpen
      ensures !isOpen
    {
      isOpen := false;
    }

    /** `_ser_init` on the same device: new settings, closed. */
    method Renew(port: Option<string>, baudrate: nat)
      modifies this`port, this`baudrate, this`isOpen
      ensures this.port == port && this.baudrate == baudrate && !isOpen
    {
      this.port := port;
      this.baudrate := baudrate;
      isOpen := false;
    }

    method Write(data: string)
      modifies this`written
      ensures written == old(written) + [data]
    {
      written := written + [data];
    }

    /** `read(...)`: the next supplied result, or no bytes once the supply
        is used up. */
    method Read() returns (c: Chunk)
      modifies this`incoming
      ensures c == ReadAt(old(incoming), 0) && incoming == DropN(old(incoming), 1)
    {
      c := ReadAt(incoming, 0);
      incoming := DropN(incoming, 1);
    }
  }

  class Monitor {
    var isReady: bool
    var isThreadAlive: bool
    /** The number of reader loops running. */
    var readers: nat
    var port: Option<string>
    var baudrate: nat
    /** Everything put on the message queue, in order. */
    var messages: seq<string>
    const ser: SerialLink

    function Abs(): Conn
      reads this, ser
    {
      Conn(isReady, isThreadAlive, readers, port, baudrate, ser.port, ser.baudrate, ser.isOpen,
           ser.incoming, ser.written, messages)
    }

    predicate Valid()
      reads this, ser
    {
      Coherent(Abs())
    }

    constructor (incoming: seq<Chunk>)
      ensures Valid() && Abs() == Initial(incoming)
    {
      isReady := false;
      isThreadAlive := false;
      readers := 0;
      port := None;
      baudrate := DefaultBaudrate;
      messages := [];
      ser := new SerialLink(None, DefaultBaudrate, incoming);
    }

    /** Puts `line` on the message queue. */
    method Show(line: string)
      modifies this`messages
      ensures Abs() == old(Abs()).(messages := old(Abs()).messages + [line])
    {
      messages := messages + [line];
    }

    method StartReadThread()
      modifies this`isThreadAlive, this`readers
      ensures Abs() == ThreadStarted(old(Abs()))
    {
      if !isThreadAlive {
        isThreadAlive := true;
        readers := readers + 1;
      }
    }

    method StopReadThread()
      modifies this`isThreadAlive, this`readers
      ensures Abs() == ThreadStopped(old(Abs()))
    {
      if isThreadAlive {
        isThreadAlive := false;
        readers := 0;
      }
    }

    /** `_check_ready`: open, and after a failure renew the link with the
        monitor's own settings and open once more, if it has both. */
    method CheckReady(first: Option<string>, retry: Option<string>) returns (error: Option<string>)
      modifies ser`port, ser`baudrate, ser`isOpen
      ensures var firstError := if old(ser.isOpen) then Some(AlreadyOpenText) else first;
        var retried := firstError.Some? && PortSet(port) && baudrate != 0;
        && error == (if firstError.None? then None else if retried then retry else firstError)
        && (retried ==> ser.port == port && ser.baudrate == baudrate && ser.isOpen == retry.None?)
        && (!retried ==> ser.port == old(ser.port) && ser.baudrate == old(ser.baudrate)
                         && ser.isOpen == (old(ser.isOpen) || first.None?))
    {
      error := ser.Open(first);
      if error.Some? {
        if PortSet(port) && baudrate != 0 {
          ser.Renew(port, baudrate);
          error := ser.Open(retry);
        }
      }
    }

    method Start(first: Option<string>, retry: Option<string>, log: bool)
      requires Valid()
      modifies this, ser`port, ser`baudrate, ser`isOpen
      ensures Valid() && Abs() == Started(old(Abs()), first, retry, log)
    {
      CoherentStarted(Abs(), first, retry, log);
      if !isReady && PortSet(ser.port) && ser.baudrate != 0 {
        var error := CheckReady(first, retry);
        if error.Some? {
          Show(error.value);
        } else {
          port := ser.port;
          baudrate := ser.baudrate;
          isReady := true;
          if !isThreadAlive {
            StartReadThread();
          }
          if log {
            Show(ConnectedText(port, baudrate));
          }
        }
      }
    }

    method Stop(log: bool)
      requires Valid()
      modifies this, ser`isOpen
      ensures Valid() && Abs() == Stopped(old(Abs()), log)
    {
      CoherentStopped(Abs(), log);
      if isReady {
        isReady := false;
        StopReadThread();
        ser.Close();
        if log {
          Show(DisconnectedText(port));
        }
      }
    }

    /** The `port` setter. */
    method SetPort(p: Option<string>, first: Option<string>, retry: Option<string>)
      requires Valid()
      modifies this, ser`port, ser`baudrate, ser`isOpen
      ensures Valid() && Abs() == PortChanged(old(Abs()), p, first, retry)
    {
      if p != port {
        Stop(true);
        ser.port := p;
        Start(first, retry, true);
      }
    }

    /** The `baudrate` setter. */
    method SetBaudrate(b: nat, first: Option<string>, retry: Option<string>)
      requires Valid()
      modifies this, ser`port, ser`baudrate, ser`isOpen
      ensures Valid() && Abs() == BaudChanged(old(Abs()), b, first, retry)
    {
      if b != baudrate {
        Stop(true);
        ser.baudrate := b;
        Start(first, retry, true);
      }
    }

    /** One pass of the reader loop. */
    method ReadOnce()
      modifies this, ser`incoming, ser`isOpen
      ensures Abs() == ReaderStep(old(Abs()))
    {
      var chunk := ser.Read();
      match chunk
      case ReadFault(reason) =>
        isThreadAlive := false;
        readers := 0;
        isReady := false;
        port := None;
        ser.Close();
        Show(reason + "\n");
      case Bytes(d) =>
        if d != [] {
          Show(Data2Str(d));
        }
    }

    /** The reader loop `_run`, for at most `passes` passes: it stops once
        its flag is clear. */
    method Run(passes: nat)
      requires Valid()
      modifies this, ser`incoming, ser`isOpen
      ensures Valid() && Abs() == ReadFor(old(Abs()), passes)
    {
      ghost var c0 := Abs();
      var k := 0;
      while k < passes && isThreadAlive
        invariant k <= passes
        invariant Abs() == ReadFor(c0, k)
      {
        ReadOnce();
        k := k + 1;
      }
      ReadForSettles(c0, k, passes);
      CoherentReading(c0, passes);
    }

    /** The `for _ in range(1000)` loop of `_command`. */
    method PollReads() returns (p: Polled)
      modifies ser`incoming
      ensures p == Poll(old(ser.incoming), 0, [], MaxPolls)
      ensures ser.incoming == DropN(old(ser.incoming), p.readCount)
    {
      ghost var chunks := ser.incoming;
      var buf: string := [];
      var n := 0;
      while n < MaxPolls
        invariant n <= MaxPolls
        invariant ser.incoming == DropN(chunks, n)
        invariant Poll(chunks, 0, [], MaxPolls) == Poll(chunks, n, buf, MaxPolls - n)
      {
        DropNRead(chunks, n, 0);
        DropNDrop(chunks, n, 1);
        var chunk := ser.Read();
        match chunk {
          case ReadFault(reason) =>
            return Broken(reason, n + 1);
          case Bytes(d) =>
            buf := buf + d;
            if d == [] || Contains(buf, Prompt) {
              return Gathered(Data2Str(buf), n + 1);
            }
        }
        n := n + 1;
      }
      return Gathered([], n);
    }

    /** `_command(step.cmd, step.rsp, step.echo)`; a raised error is the
        `Failed` outcome. */
    method Command(step: Step) returns (outcome: Outcome)
      modifies this`messages, ser`incoming, ser`written
      ensures var e := Exchange(old(ser.incoming), step);
        outcome == e.outcome && Abs() == Applied(old(Abs()), Extend(NoRun, step, e))
    {
      ser.Write(Framed(step.cmd));
      var p := PollReads();
      match p {
        case Broken(reason, _) =>
          return Failed(LinkFailed(reason));
        case Gathered(packet, _) =>
          if step.echo {
            Show(packet);
          }
          var echoed := IsEcho(step.cmd, packet);
          if !echoed {
            return Failed(EchoMissing);
          }
          if step.rsp != [] && !Contains(packet, step.rsp) {
            return Failed(ReplyMissing);
          }
          return Done;
      }
    }

    /** `_command(step.cmd, step.rsp, step.echo)` as the next exchange of a
        script that began in state `c0` and whose exchanges `before` all
        succeeded. */
    method CommandAfter(step: Step, ghost c0: Conn, ghost before: seq<Step>) returns (outcome: Outcome)
      requires RunScript(c0.incoming, before).outcome.Done?
      requires Abs() == Applied(c0, RunScript(c0.incoming, before))
      modifies this`messages, ser`incoming, ser`written
      ensures var r := RunScript(c0.incoming, before + [step]);
        outcome == r.outcome && Abs() == Applied(c0, r)
    {
      ghost var a := Abs();
      outcome := Command(step);
      ExchangeExtends(c0, a, before, step);
    }

    /** `_ls`. */
    method ListFiles(file: string) returns (raised: Outcome)
      modifies this`messages, ser`incoming, ser`written
      ensures var r := RunScript(old(ser.incoming), VerbSteps(Ls, file));
        raised == VerbRaises(Ls, r.outcome) && Abs() == AfterVerb(old(Abs()), Ls, file)
    {
      ghost var c0 := Abs();
      var s0 := Step(ListCommand, "", true);
      AppliedNothing(c0);
      assert [] + [s0] == VerbSteps(Ls, file);
      raised := CommandAfter(s0, c0, []);
    }

    /** `_rm`. */
    method RemoveFile(file: string) returns (raised: Outcome)
      modifies this`messages, ser`incoming, ser`written
      ensures var r := RunScript(old(ser.incoming), VerbSteps(Rm, file));
        raised == VerbRaises(Rm, r.outcome) && Abs() == AfterVerb(old(Abs()), Rm, file)
    {
      ghost var c0 := Abs();
      var s0 := Step("=file.remove(\"" + file + "\")", "", false);
      AppliedNothing(c0);
      assert [] + [s0] == VerbSteps(Rm, file);
      raised := CommandAfter(s0, c0, []);
      if raised.Done? {
        Show(PromptText);
      }
    }

    /** `_touch`. */
    method TouchFile(file: string) returns (raised: Outcome)
      modifies this`messages, ser`incoming, ser`written
      ensures var r := RunScript(old(ser.incoming), VerbSteps(Touch, file));
        raised == VerbRaises(Touch, r.outcome) && Abs() == AfterVerb(old(Abs()), Touch, file)
    {
      ghost var c0 := Abs();
      var s0 := Step("=file.open(\"" + file + "\",\"w\")", "true", false);
      var s1 := Step("=file.close()", "", false);
      assert VerbSteps(Touch, file) == [s0] + [s1];
      AppliedNothing(c0);
      assert [] + [s0] == [s0];
      raised := CommandAfter(s0, c0, []);
      if raised.Failed? {
        ScriptStopsAtFailure(Exchange, c0.incoming, [s0], [s1]);
        return;
      }
      raised := CommandAfter(s1, c0, [s0]);
      if raised.Done? {
        Show(PromptText);
      }
    }

    /** `_cat`: any error of its three exchanges is caught and reported as
        the file not opening. */
    method CatFile(file: string) returns (raised: Outcome)
      modifies this`messages, ser`incoming, ser`written
      ensures var r := RunScript(old(ser.incoming), VerbSteps(Cat, file));
        raised == VerbRaises(Cat, r.outcome) && Abs() == AfterVerb(old(Abs()), Cat, file)
    {
      ghost var c0 := Abs();
      var s0 := Step("=file.open(\"" + file + "\")", "true", false);
      var s1 := Step("=file.read()", "", true);
      var s2 := Step("=file.close()", "", false);
      assert VerbSteps(Cat, file) == [s0] + [s1] + [s2];
      raised := Done;
      AppliedNothing(c0);
      assert [] + [s0] == [s0];
      var o := CommandAfter(s0, c0, []);
      if o.Failed? {
        ScriptStopsAtFailure(Exchange, c0.incoming, [s0], [s1] + [s2]);
        assert [s0] + ([s1] + [s2]) == VerbSteps(Cat, file);
        Show(CantOpenText);
        return;
      }
      o := CommandAfter(s1, c0, [s0]);
      if o.Failed? {
        ScriptStopsAtFailure(Exchange, c0.incoming, [s0] + [s1], [s2]);
        Show(CantOpenText);
        return;
      }
      o := CommandAfter(s2, c0, [s0] + [s1]);
      if o.Failed? {
        Show(CantOpenText);
      }
    }

    /** `send(text)`. */
    method Send(text: string)
      requires Valid()
      modifies this, ser`incoming, ser`written
      ensures Valid() && Abs() == Sent(old(Abs()), text)
    {
      CoherentSent(Abs(), text);
      if isReady {
        match RouteOf(text)
        case PassThrough =>
          ser.Write(text + Terminator);
        case Builtin(v, arg) =>
          StopReadThread();
          var raised;
          match v {
            case Ls => raised := ListFiles(arg);
            case Rm => raised := RemoveFile(arg);
            case Cat => raised := CatFile(arg);
            case Touch => raised := TouchFile(arg);
          }
          if raised.Failed? {
            Show(FailureText(raised.failure));
          }
          StartReadThread();
      }
    }

    /** The `readline` loop of `_upload_task`, run after the exchanges
        `before` that began in state `c0` and succeeded: a write-line exchange
        for every line that is not a comment, ending at the first error, and
        after the last line the decoding error, if the file has one. */
    method WriteLines(file: FileText, ghost c0: Conn, ghost before: seq<Step>) returns (outcome: Outcome)
      requires RunScript(c0.incoming, before).outcome.Done?
      requires Abs() == Applied(c0, RunScript(c0.incoming, before))
      modifies this`messages, ser`incoming, ser`written
      ensures var r := RunScript(c0.incoming, before + WriteSteps(Lines(file.text, 0)));
        && outcome == (if r.outcome.Done? && file.fault.Some? then Failed(DecodeFailed(file.fault.value)) else r.outcome)
        && Abs() == Applied(c0, r)
    {
      var text := file.text;
      outcome := Done;
      var pos := 0;
      var line := ReadLine(text, 0);
      ghost var done: seq<string> := [];
      assert before + WriteSteps(done) == before;
      while line != []
        invariant pos <= |text| && line == ReadLine(text, pos)
        invariant done + Lines(text, pos) == Lines(text, 0)
        invariant RunScript(c0.incoming, before + WriteSteps(done)).outcome.Done? && outcome.Done?
        invariant Abs() == Applied(c0, RunScript(c0.incoming, before + WriteSteps(done)))
        decreases |text| - pos
      {
        var next := LineEnd(text, pos);
        ghost var sofar := before + WriteSteps(done);
        LineSplits(text, pos, done, before);
        if !IsComment(line) {
          var step := Step(WriteLineCommand(line), "", true);
          outcome := CommandAfter(step, c0, sofar);
          if outcome.Failed? {
            ScriptStopsAtFailure(Exchange, c0.incoming, sofar + [step], WriteSteps(Lines(text, next)));
            return;
          }
        }
        done := done + [line];
        pos := next;
        line := ReadLine(text, pos);
      }
      assert Lines(text, pos) == [];
      assert done == Lines(text, 0);
      if file.fault.Some? {
        outcome := Failed(DecodeFailed(file.fault.value));
      }
    }

    /** The first two exchanges of `_upload_task`: close any open file and
        open the target for writing. */
    method OpenTarget(name: string, ghost c0: Conn) returns (outcome: Outcome)
      requires Abs() == c0
      modifies this`messages, ser`incoming, ser`written
      ensures var r := RunScript(c0.incoming, UploadHead(name));
        outcome == r.outcome && Abs() == Applied(c0, r)
    {
      var h0 := Step("file.close()", "", true);
      var h1 := Step(OpenForWrite(name), "true", true);
      AppliedNothing(c0);
      assert [] + [h0] == [h0];
      outcome := CommandAfter(h0, c0, []);
      if outcome.Failed? {
        ScriptStopsAtFailure(Exchange, c0.incoming, [h0], [h1]);
        return;
      }
      outcome := CommandAfter(h1, c0, [h0]);
    }

    /** The last two exchanges of `_upload_task`: flush and close the file. */
    method CloseTarget(ghost c0: Conn, ghost before: seq<Step>) returns (outcome: Outcome)
      requires RunScript(c0.incoming, before).outcome.Done?
      requires Abs() == Applied(c0, RunScript(c0.incoming, before))
      modifies this`messages, ser`incoming, ser`written
      ensures var r := RunScript(c0.incoming, before + UploadTail);
        outcome == r.outcome && Abs() == Applied(c0, r)
    {
      var t0 := Step("file.flush()", "", true);
      var t1 := Step("file.close()", "", true);
      assert before + UploadTail == before + [t0] + [t1];
      outcome := CommandAfter(t0, c0, before);
      if outcome.Failed? {
        ScriptStopsAtFailure(Exchange, c0.incoming, before + [t0], [t1]);
        return;
      }
      outcome := CommandAfter(t1, c0, before + [t0]);
    }

    /** The body of the `try` in `_upload_task`: the upload script of the
        file named `name` as reading `file` delivers it, ending at the first
        error. */
    method UploadScript(name: string, file: FileText) returns (outcome: Outcome)
      modifies this`messages, ser`incoming, ser`written
      ensures var r := UploadRun(old(ser.incoming), name, file);
        outcome == r.outcome && Abs() == Applied(old(Abs()), r)
    {
      ghost var c0 := Abs();
      ghost var head := UploadHead(name);
      ghost var body := WriteSteps(Lines(file.text, 0));
      outcome := OpenTarget(name, c0);
      if outcome.Failed? {
        ScriptStopsAtFailure(Exchange, c0.incoming, head, body);
        ScriptStopsAtFailure(Exchange, c0.incoming, head, body + UploadTail);
        assert head + (body + UploadTail) == UploadSteps(name, file.text);
        return;
      }
      outcome := WriteLines(file, c0, head);
      if outcome.Failed? {
        if RunScript(c0.incoming, head + body).outcome.Failed? {
          ScriptStopsAtFailure(Exchange, c0.incoming, head + body, UploadTail);
        }
        return;
      }
      outcome := CloseTarget(c0, head + body);
    }

    /** `_upload_task(path)`; `contents` is the text of the file, `None`
        when it cannot be opened (the error escapes before anything runs). */
    method UploadTask(path: string, contents: Option<FileText>)
      requires Valid()
      modifies this, ser`incoming, ser`written
      ensures Valid() && Abs() == Uploaded(old(Abs()), path, contents)
    {
      ghost var c := Abs();
      CoherentUploaded(c, path, contents);
      if isReady && contents.Some? {
        var name := Basename(path);
        StopReadThread();
        ghost var r := UploadRun(c.incoming, name, contents.value);
        var outcome := UploadScript(name, contents.value);
        ghost var a := Applied(ThreadStopped(c), r);
        assert Abs() == a && outcome == r.outcome;
        ghost var shown := a.(messages := a.messages + if r.outcome.Failed? then [FailureText(r.outcome.failure)] else []);
        if outcome.Failed? {
          Show(FailureText(outcome.failure));
          assert Abs() == shown;
        } else {
          assert a.messages + [] == a.messages;
          assert Abs() == shown;
        }
        StartReadThread();
        assert Abs() == AfterTask(c, r);
      }
    }
  }

  /** How the upload script grows by the line read at `pos`. */
  lemma LineSplits(text: string, pos: nat, done: seq<string>, before: seq<Step>)
    requires pos < |text| && done + Lines(text, pos) == Lines(text, 0)
    ensures var line := ReadLine(text, pos);
      var next := LineEnd(text, pos);
      var sofar := before + WriteSteps(done);
      && (done + [line]) + Lines(text, next) == Lines(text, 0)
      && (IsComment(line) ==> before + WriteSteps(done + [line]) == sofar)
      && (!IsComment(line) ==>
            var step := Step(WriteLineCommand(line), "", true);
            && before + WriteSteps(done + [line]) == sofar + [step]
            && before + WriteSteps(Lines(text, 0)) == (sofar + [step]) + WriteSteps(Lines(text, next)))
  {
    var line := ReadLine(text, pos);
    var next := LineEnd(text, pos);
    assert Lines(text, pos) == [line] + Lines(text, next);
    assert Lines(text, 0) == (done + [line]) + Lines(text, next);
    StepsGrow(before, done, line, Lines(text, next));
  }

  lemma StepsGrow(before: seq<Step>, done: seq<string>, line: string, rest: seq<string>)
    ensures IsComment(line) ==> before + WriteSteps(done + [line]) == before + WriteSteps(done)
    ensures !IsComment(line) ==>
      var step := Step(WriteLineCommand(line), "", true);
      && before + WriteSteps(done + [line]) == before + WriteSteps(done) + [step]
      && before + WriteSteps(done + [line] + rest) == (before + WriteSteps(done) + [step]) + WriteSteps(rest)
  {
    var ws, wl, wr := WriteSteps(done), WriteSteps([line]), WriteSteps(rest);
    WriteStepsAppend(done, [line]);
    WriteStepsAppend(done + [line], rest);
    if IsComment(line) {
      assert wl == [];
      assert ws + wl == ws;
    } else {
      assert wl == [Step(WriteLineCommand(line), "", true)];
      assert before + (ws + wl) == before + ws + wl;
      assert before + ((ws + wl) + wr) == (before + ws + wl) + wr;
    }
  }

  /** Once the reader has stopped, further passes change nothing. */
  lemma {:induction false} ReadForSettles(c: Conn, k: nat, n: nat)
    requires k <= n
    requires k < n ==> !ReadFor(c, k).alive
    ensures ReadFor(c, n) == ReadFor(c, k)
    decreases n - k
  {
    if k < n {
      ReadForSettles(c, k, n - 1);
    }
  }
}
