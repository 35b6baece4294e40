/**
 The inbound SMTP session of delivery/smtp_receiver.py: commands, the DATA state, and the
 processing of accepted messages, whose start and completion interleave with further input.
 */
module SmtpReceiver {
  import opened Text
  import opened Encodings
  import opened LineProtocol

  const DOT: Byte := 46

  /** `decode` reads a command line as text; it never fails. */
  datatype Config = Config(hostname: string, maxSize: nat, decode: seq<Byte> -> string)

  datatype Mode = Command | Data

  datatype Reply = Reply(code: nat, text: string)

  /**
   What a processing task hands to the pipeline: the envelope as it stands when the task starts.
   The recipients are the session's own list, so what is added to that list is added here too.
   */
  datatype Submission = Submission(envelopeFrom: string, envelopeTo: seq<string>, raw: seq<Byte>)

  /**
   The fields of a session.  `dispatched` holds the message of every processing task created so
   far; the first `begun` of them have started and `finished` have completed.  The submissions from
   `shared` on have the list that is the session's recipient list still.
   */
  datatype Session = Session(
    mode: Mode, helo: string, mailFrom: string, rcptTo: seq<string>,
    dataBuffer: seq<seq<Byte>>, dataBytes: nat,
    closing: bool, replies: seq<Reply>,
    dispatched: seq<seq<Byte>>, submitted: seq<Submission>, shared: nat, begun: nat, finished: nat)

  const FRESH := Session(Command, "", "", [], [], 0, false, [], [], [], 0, 0, 0)

  function Answer(s: Session, code: nat, text: string): Session {
    if s.closing then s else s.(replies := s.replies + [Reply(code, text)])
  }

  /** `self.rcpt_to = []`: a new list, which no submission has. */
  function NewList(s: Session): Session {
    s.(rcptTo := [], shared := |s.submitted|)
  }

  function WithRecipients(submitted: seq<Submission>, shared: nat, recipients: seq<string>): (r: seq<Submission>)
    ensures |r| == |submitted|
  {
    seq(|submitted|, i requires 0 <= i < |submitted| =>
      if i < shared then submitted[i] else submitted[i].(envelopeTo := recipients))
  }

  /** `self.rcpt_to.append(address)`: submissions that have the list see it grow. */
  function Append(s: Session, address: string): Session {
    var recipients := s.rcptTo + [address];
    s.(rcptTo := recipients, submitted := WithRecipients(s.submitted, s.shared, recipients))
  }

  predicate IsAngle(c: char) {
    c == '<' || c == '>'
  }

  /** The second element of `line.split(maxsplit=1)`, or "". */
  function Argument(line: string): string {
    var body := StripLeft(line, IsSpace);
    StripLeft(Drop(body, RunLength(body, IsSpace)), IsSpace)
  }

  function Address(line: string, n: nat): string {
    StripChars(Strip(Drop(line, n)), IsAngle)
  }

  datatype Order =
    | Blank
    | Helo(domain: string)
    | MailFrom(address: string)
    | RcptTo(address: string)
    | StartData
    | Rset
    | Quit
    | Noop
    | Unrecognized

  function ParseCommand(line: string): Order {
    var u := Upper(Strip(line));
    if u == "" then Blank
    else if StartsWith(u, "HELO") || StartsWith(u, "EHLO") then Helo(Argument(line))
    else if StartsWith(u, "MAIL FROM:") then MailFrom(Address(line, 10))
    else if StartsWith(u, "RCPT TO:") then RcptTo(Address(line, 8))
    else if u == "DATA" then StartData
    else if u == "RSET" then Rset
    else if u == "QUIT" then Quit
    else if u == "NOOP" then Noop
    else Unrecognized
  }

  function Obey(c: Config, s: Session, order: Order): Session {
    match order
    case Blank => s
    case Helo(domain) => Answer(s.(helo := domain), 250, c.hostname + " Hello " + domain)
    case MailFrom(address) => Answer(NewList(s).(mailFrom := address), 250, "2.1.0 Sender OK")
    case RcptTo(address) =>
      if s.mailFrom == "" then Answer(s, 503, "5.5.1 Error: need MAIL command first")
      else Answer(Append(s, address), 250, "2.1.5 Recipient OK")
    case StartData =>
      if s.rcptTo == [] then Answer(s, 503, "5.5.1 Error: need RCPT command first")
      else Answer(s.(mode := Data, dataBuffer := [], dataBytes := 0), 354,
                  "Start mail input; end with <CR><LF>.<CR><LF>")
    case Rset => Answer(NewList(s).(mailFrom := "", dataBuffer := [], mode := Command), 250, "2.0.0 Reset OK")
    case Quit => Answer(s, 221, c.hostname + " Service closing transmission channel").(closing := true)
    case Noop => Answer(s, 250, "2.0.0 OK")
    case Unrecognized => Answer(s, 500, "5.5.2 Command unrecognized")
  }

  /** `b"\r\n".join(lines)` */
  function Join(lines: seq<seq<Byte>>): seq<Byte> {
    if lines == [] then [] else if |lines| == 1 then lines[0] else lines[0] + CRLF + Join(lines[1..])
  }

  function Unstuff(line: seq<Byte>): seq<Byte> {
    if StartsWith(line, [DOT, DOT]) then line[1..] else line
  }

  function HandleData(c: Config, s: Session, line: seq<Byte>): Session {
    if line == [DOT] then s.(mode := Command, dispatched := s.dispatched + [Join(s.dataBuffer)])
    else
      var text := Unstuff(line);
      var count := s.dataBytes + |text| + 2;
      if count > c.maxSize then
        Answer(s.(dataBytes := count), 552, "5.3.4 Message size exceeds fixed limit")
          .(mode := Command, dataBuffer := [])
      else s.(dataBytes := count, dataBuffer := s.dataBuffer + [text])
  }

  function HandleLine(c: Config, s: Session, line: seq<Byte>): Session {
    if s.mode.Data? then HandleData(c, s, line) else Obey(c, s, ParseCommand(c.decode(line)))
  }

  function Handler(c: Config): (Session, seq<Byte>) -> Session {
    (s, line) => HandleLine(c, s, line)
  }

  /** The oldest message not yet begun is parsed; if that succeeds it is submitted with the current envelope. */
  function Begin(s: Session, parsed: bool): Session {
    if s.begun >= |s.dispatched| then s
    else s.(begun := s.begun + 1,
            submitted := if parsed then s.submitted + [Submission(s.mailFrom, s.rcptTo, s.dispatched[s.begun])]
                         else s.submitted)
  }

  /** A task that has begun completes with some reply and clears the envelope. */
  function Finish(s: Session, code: nat, text: string): Session {
    if s.finished >= s.begun then s
    else NewList(Answer(s.(finished := s.finished + 1), code, text)).(mailFrom := "", dataBuffer := [])
  }

  class SMTPProtocol {
    const config: Config
    var mode: Mode
    var heloDomain: string
    var mailFrom: string
    var rcptTo: seq<string>
    var dataBuffer: seq<seq<Byte>>
    var dataBytesCount: nat
    var buffer: seq<Byte>
    var closing: bool
    var replies: seq<Reply>
    var dispatched: seq<seq<Byte>>
    var submitted: seq<Submission>
    var shared: nat
    var begun: nat
    var finished: nat

    ghost function View(): Session
      reads this
    {
      Session(mode, heloDomain, mailFrom, rcptTo, dataBuffer, dataBytesCount,
              closing, replies, dispatched, submitted, shared, begun, finished)
    }

    constructor (config: Config)
      ensures this.config == config && buffer == []
      ensures View() == Answer(FRESH, 220, config.hostname + " ESMTP Inbound Receiver Ready")
    {
      this.config := config;
      mode, heloDomain, mailFrom, rcptTo := Command, "", "", [];
      dataBuffer, dataBytesCount, buffer := [], 0, [];
      closing, dispatched, submitted, shared, begun, finished := false, [], [], 0, 0, 0;
      replies := [Reply(220, config.hostname + " ESMTP Inbound Receiver Ready")];
    }

    method SendReply(code: nat, text: string)
      modifies this`replies
      ensures View() == Answer(old(View()), code, text)
    {
      if !closing {
        replies := replies + [Reply(code, text)];
      }
    }

    method DataReceived(data: seq<Byte>)
      modifies this
      ensures Stream(View(), buffer) == Feed(Handler(config), Stream(old(View()), old(buffer)), data)
    {
      ghost var result := Feed(Handler(config), Stream(View(), buffer), data);
      buffer := buffer + data;
      while HasLine(buffer)
        invariant Drain(Handler(config), Stream(View(), buffer)) == result
        decreases |buffer|
      {
        ghost var before := Stream(View(), buffer);
        var n := LineEnd(buffer);
        var line := buffer[..n];
        buffer := buffer[n + 2..];
        ReceiveLine(line);
        DrainOnce(Handler(config), before, n, Stream(View(), buffer));
      }
      DrainStops(Handler(config), Stream(View(), buffer));
    }

    /** The body of the loop, once a line has been cut off the buffer. */
    method ReceiveLine(line: seq<Byte>)
      modifies this
      ensures View() == Handler(config)(old(View()), line) && buffer == old(buffer)
    {
      if mode == Data {
        HandleDataLine(line);
      } else {
        HandleCommandLine(ParseCommand(config.decode(line)));
      }
    }

    method HandleCommandLine(order: Order)
      modifies this
      ensures View() == Obey(config, old(View()), order) && buffer == old(buffer)
    {
      if order.MailFrom? || order.RcptTo? || order.StartData? {
        HandleEnvelope(order);
      } else if order.Rset? {
        HandleReset();
      } else {
        HandleSimple(order);
      }
    }

    method HandleReset()
      modifies this
      ensures View() == Obey(config, old(View()), Rset) && buffer == old(buffer)
    {
      mailFrom := "";
      NewRecipientList();
      dataBuffer := [];
      mode := Command;
      SendReply(250, "2.0.0 Reset OK");
    }

    /** The commands that leave the transaction alone. */
    method HandleSimple(order: Order)
      requires !order.MailFrom? && !order.RcptTo? && !order.StartData? && !order.Rset?
      modifies `heloDomain, `closing, `replies
      ensures View() == Obey(config, old(View()), order)
    {
      match order {
        case Blank =>
        case Helo(domain) =>
          heloDomain := domain;
          SendReply(250, config.hostname + " Hello " + heloDomain);
        case Quit =>
          SendReply(221, config.hostname + " Service closing transmission channel");
          closing := true;
        case Noop => SendReply(250, "2.0.0 OK");
        case Unrecognized => SendReply(500, "5.5.2 Command unrecognized");
      }
    }

    method NewRecipientList()
      modifies `rcptTo, `shared
      ensures View() == NewList(old(View()))
    {
      rcptTo := [];
      shared := |submitted|;
    }

    /** Submissions from `shared` on have this very list. */
    method AppendRecipient(address: string)
      modifies `rcptTo, `submitted
      ensures View() == Append(old(View()), address)
    {
      rcptTo := rcptTo + [address];
      submitted := WithRecipients(submitted, shared, rcptTo);
    }

    /** The three commands that build up a transaction. */
    method HandleEnvelope(order: Order)
      requires order.MailFrom? || order.RcptTo? || order.StartData?
      modifies this
      ensures View() == Obey(config, old(View()), order) && buffer == old(buffer)
    {
      if order.MailFrom? {
        mailFrom := order.address;
        NewRecipientList();
        SendReply(250, "2.1.0 Sender OK");
      } else if order.RcptTo? {
        HandleRecipient(order);
      } else {
        HandleDataCommand();
      }
    }

    method HandleDataCommand()
      modifies this
      ensures View() == Obey(config, old(View()), StartData) && buffer == old(buffer)
    {
      if rcptTo == [] {
        SendReply(503, "5.5.1 Error: need RCPT command first");
        return;
      }
      mode := Data;
      dataBuffer := [];
      dataBytesCount := 0;
      SendReply(354, "Start mail input; end with <CR><LF>.<CR><LF>");
    }

    method HandleRecipient(order: Order)
      requires order.RcptTo?
      modifies this
      ensures View() == Obey(config, old(View()), order) && buffer == old(buffer)
    {
      if mailFrom == "" {
        SendReply(503, "5.5.1 Error: need MAIL command first");
        return;
      }
      AppendRecipient(order.address);
      SendReply(250, "2.1.5 Recipient OK");
    }

    method HandleDataLine(lineIn: seq<Byte>)
      modifies this
      ensures View() == HandleData(config, old(View()), lineIn) && buffer == old(buffer)
    {
      var line := lineIn;
      if line == [DOT] {
        mode := Command;
        dispatched := dispatched + [Join(dataBuffer)];
      } else {
        if StartsWith(line, [DOT, DOT]) {
          line := line[1..];
        }
        dataBytesCount := dataBytesCount + |line| + 2;
        if dataBytesCount > config.maxSize {
          SendReply(552, "5.3.4 Message size exceeds fixed limit");
          mode := Command;
          dataBuffer := [];
        } else {
          dataBuffer := dataBuffer + [line];
        }
      }
    }

    /** The processing task of the oldest waiting message runs up to its await. */
    method BeginProcessing(parsed: bool)
      modifies this
      ensures View() == Begin(old(View()), parsed) && buffer == old(buffer)
    {
      if begun < |dispatched| {
        if parsed {
          submitted := submitted + [Submission(mailFrom, rcptTo, dispatched[begun])];
        }
        begun := begun + 1;
      }
    }

    /** A processing task replies and runs its final clean-up. */
    method FinishProcessing(code: nat, text: string)
      modifies this
      ensures View() == Finish(old(View()), code, text) && buffer == old(buffer)
    {
      if finished < begun {
        finished := finished + 1;
        SendReply(code, text);
        mailFrom := "";
        NewRecipientList();
        dataBuffer := [];
      }
    }
  }

  // ---------- Every interleaving ----------

  datatype Event = Received(data: seq<Byte>) | Began(parsed: bool) | Finished(code: nat, text: string)

  function Next(c: Config, s: Stream<Session>, e: Event): Stream<Session> {
    match e
    case Received(data) => Feed(Handler(c), s, data)
    case Began(parsed) => s.(state := Begin(s.state, parsed))
    case Finished(code, text) => s.(state := Finish(s.state, code, text))
  }

  function Run(c: Config, s: Stream<Session>, events: seq<Event>): Stream<Session>
    decreases |events|
  {
    if events == [] then s else Run(c, Next(c, s, events[0]), events[1..])
  }

  /** What the lines count towards the size limit: each with its CRLF. */
  function Size(lines: seq<seq<Byte>>): nat {
    if lines == [] then 0 else Size(lines[..|lines| - 1]) + |lines[|lines| - 1]| + 2
  }

  lemma {:induction false} SizeOfJoin(lines: seq<seq<Byte>>)
    ensures |Join(lines)| == if lines == [] then 0 else Size(lines) - 2
  {
    if |lines| > 1 {
      SizeOfJoin(lines[1..]);
      SizeFromFront(lines);
    }
  }

  lemma {:induction false} SizeFromFront(lines: seq<seq<Byte>>)
    requires lines != []
    ensures Size(lines) == |lines[0]| + 2 + Size(lines[1..])
  {
    if |lines| > 1 {
      assert lines[..|lines| - 1][1..] == lines[1..][..|lines| - 2];
      SizeFromFront(lines[..|lines| - 1]);
    }
  }

  ghost predicate AllWithin(maxSize: nat, messages: seq<seq<Byte>>) {
    forall i :: 0 <= i < |messages| ==> |messages[i]| <= maxSize
  }

  /** What was submitted had been dispatched, recipients come with a sender, and shared recipients are the session's. */
  ghost predicate SubmissionsSane(submitted: seq<Submission>, dispatched: seq<seq<Byte>>, shared: nat,
                                  mailFrom: string, rcptTo: seq<string>)
  {
    && shared <= |submitted|
    && (forall i :: 0 <= i < |submitted| ==>
          submitted[i].raw in dispatched && (submitted[i].envelopeTo != [] ==> submitted[i].envelopeFrom != ""))
    && (forall i :: shared <= i < |submitted| ==>
          submitted[i].envelopeTo == rcptTo && submitted[i].envelopeFrom == mailFrom)
  }

  ghost predicate Invariant(c: Config, s: Session) {
    && (s.rcptTo != [] ==> s.mailFrom != "")
    && (s.mode.Data? ==> Size(s.dataBuffer) <= s.dataBytes <= c.maxSize)
    && AllWithin(c.maxSize, s.dispatched)
    && s.finished <= s.begun <= |s.dispatched| && |s.submitted| <= s.begun
    && SubmissionsSane(s.submitted, s.dispatched, s.shared, s.mailFrom, s.rcptTo)
  }

  lemma NewListKeepsSane(s: Session, mailFrom: string)
    requires SubmissionsSane(s.submitted, s.dispatched, s.shared, s.mailFrom, s.rcptTo)
    ensures SubmissionsSane(s.submitted, s.dispatched, |s.submitted|, mailFrom, [])
  {
  }

  lemma AppendKeepsSane(s: Session, recipients: seq<string>)
    requires SubmissionsSane(s.submitted, s.dispatched, s.shared, s.mailFrom, s.rcptTo) && s.mailFrom != ""
    ensures SubmissionsSane(WithRecipients(s.submitted, s.shared, recipients), s.dispatched, s.shared, s.mailFrom,
                            recipients)
  {
    var after := WithRecipients(s.submitted, s.shared, recipients);
    forall i | 0 <= i < |after|
      ensures after[i].raw == s.submitted[i].raw && after[i].envelopeFrom == s.submitted[i].envelopeFrom
      ensures after[i].envelopeTo == if i < s.shared then s.submitted[i].envelopeTo else recipients
    {
    }
  }

  lemma CommandKeepsInvariant(c: Config, s: Session, order: Order)
    requires Invariant(c, s) && s.mode.Command?
    ensures Invariant(c, Obey(c, s, order))
  {
    match order
    case MailFrom(address) => NewListKeepsSane(s, address);
    case Rset => NewListKeepsSane(s, "");
    case RcptTo(address) => RecipientKeepsInvariant(c, s, address);
    case StartData => DataKeepsEnvelope(c, s);
    case _ =>
  }

  lemma DataKeepsEnvelope(c: Config, s: Session)
    requires Invariant(c, s) && s.mode.Command?
    ensures Invariant(c, Obey(c, s, StartData))
  {
  }

  lemma RecipientKeepsInvariant(c: Config, s: Session, address: string)
    requires Invariant(c, s) && s.mode.Command?
    ensures Invariant(c, Obey(c, s, RcptTo(address)))
  {
    if s.mailFrom != "" {
      AppendKeepsSane(s, s.rcptTo + [address]);
    }
  }

  lemma DispatchKeepsSane(c: Config, s: Session, message: seq<Byte>)
    requires Invariant(c, s) && |message| <= c.maxSize
    ensures AllWithin(c.maxSize, s.dispatched + [message])
    ensures SubmissionsSane(s.submitted, s.dispatched + [message], s.shared, s.mailFrom, s.rcptTo)
  {
    assert forall m :: m in s.dispatched ==> m in s.dispatched + [message];
  }

  lemma DataKeepsInvariant(c: Config, s: Session, line: seq<Byte>)
    requires Invariant(c, s) && s.mode.Data?
    ensures Invariant(c, HandleData(c, s, line))
  {
    if line == [DOT] {
      SizeOfJoin(s.dataBuffer);
      DispatchKeepsSane(c, s, Join(s.dataBuffer));
    } else {
      SizeOfOne(s.dataBuffer, Unstuff(line));
    }
  }

  lemma SizeOfOne(lines: seq<seq<Byte>>, line: seq<Byte>)
    ensures Size(lines + [line]) == Size(lines) + |line| + 2
  {
    assert (lines + [line])[..|lines|] == lines;
  }

  lemma BeginKeepsInvariant(c: Config, s: Session, parsed: bool)
    requires Invariant(c, s)
    ensures Invariant(c, Begin(s, parsed))
  {
  }

  lemma FinishKeepsInvariant(c: Config, s: Session, code: nat, text: string)
    requires Invariant(c, s)
    ensures Invariant(c, Finish(s, code, text))
  {
    NewListKeepsSane(s, "");
  }

  lemma {:induction false} DrainKeepsInvariant(c: Config, s: Stream<Session>)
    requires Invariant(c, s.state)
    ensures Invariant(c, Drain(Handler(c), s).state)
    decreases |s.buffer|
  {
    if HasLine(s.buffer) {
      var n := LineEnd(s.buffer);
      var line := s.buffer[..n];
      if s.state.mode.Data? {
        DataKeepsInvariant(c, s.state, line);
      } else {
        CommandKeepsInvariant(c, s.state, ParseCommand(c.decode(line)));
      }
      assert Handler(c)(s.state, line) == HandleLine(c, s.state, line);
      DrainKeepsInvariant(c, Stream(Handler(c)(s.state, line), s.buffer[n + 2..]));
    }
  }

  lemma {:induction false} RunKeepsInvariant(c: Config, s: Stream<Session>, events: seq<Event>)
    requires Invariant(c, s.state)
    ensures Invariant(c, Run(c, s, events).state)
    decreases |events|
  {
    if events != [] {
      match events[0] {
        case Received(data) => DrainKeepsInvariant(c, s.(buffer := s.buffer + data));
        case Began(parsed) => BeginKeepsInvariant(c, s.state, parsed);
        case Finished(code, text) => FinishKeepsInvariant(c, s.state, code, text);
      }
      RunKeepsInvariant(c, Next(c, s, events[0]), events[1..]);
    }
  }

  /** From the greeting on, whatever is received, begun and finished, and in whatever order. */
  lemma EverySessionIsSafe(c: Config, events: seq<Event>)
    ensures var s := Run(c, Stream(Answer(FRESH, 220, c.hostname + " ESMTP Inbound Receiver Ready"), []), events).state;
            && (s.rcptTo != [] ==> s.mailFrom != "")
            && (s.mode.Data? ==> Size(s.dataBuffer) <= s.dataBytes <= c.maxSize)
            && (forall i :: 0 <= i < |s.dispatched| ==> |s.dispatched[i]| <= c.maxSize)
            && (forall i :: 0 <= i < |s.submitted| ==> |s.submitted[i].raw| <= c.maxSize)
  {
    RunKeepsInvariant(c, Stream(Answer(FRESH, 220, c.hostname + " ESMTP Inbound Receiver Ready"), []), events);
  }

  /** Splitting one arrival into several changes nothing, as long as no task begins or finishes in between. */
  lemma SessionIgnoresChunking(c: Config, s: Stream<Session>, chunks: seq<seq<Byte>>)
    requires !HasLine(s.buffer)
    ensures FeedAll(Handler(c), s, chunks) == Feed(Handler(c), s, Flatten(chunks))
  {
    ChunkingIsIrrelevant(Handler(c), s, chunks);
  }

  // ---------- Dot-stuffing (section 4.5.2 of RFC 5321) ----------

  function Stuff(line: seq<Byte>): seq<Byte> {
    if line != [] && line[0] == DOT then [DOT] + line else line
  }

  function StuffAll(lines: seq<seq<Byte>>): seq<seq<Byte>> {
    seq(|lines|, i requires 0 <= i < |lines| => Stuff(lines[i]))
  }

  ghost predicate NoBreaks(lines: seq<seq<Byte>>) {
    forall i :: 0 <= i < |lines| ==> !HasLine(lines[i])
  }

  lemma StuffedLine(line: seq<Byte>)
    requires !HasLine(line)
    ensures !HasLine(Stuff(line)) && Stuff(line) != [DOT] && Unstuff(Stuff(line)) == line
  {
    if line != [] && line[0] == DOT {
      assert ([DOT] + line)[1..] == line;
    }
  }

  function Buffered(s: Session, line: seq<Byte>): Session {
    s.(dataBuffer := s.dataBuffer + [line], dataBytes := s.dataBytes + |line| + 2)
  }

  function BufferedAll(s: Session, lines: seq<seq<Byte>>): Session {
    s.(dataBuffer := s.dataBuffer + lines, dataBytes := s.dataBytes + Size(lines))
  }

  lemma BufferedTwice(s: Session, lines: seq<seq<Byte>>)
    requires lines != []
    ensures BufferedAll(Buffered(s, lines[0]), lines[1..]) == BufferedAll(s, lines)
  {
    SizeFromFront(lines);
    assert s.dataBuffer + [lines[0]] + lines[1..] == s.dataBuffer + lines;
  }

  lemma LineIsBuffered(c: Config, s: Session, line: seq<Byte>)
    requires s.mode.Data? && !HasLine(line) && s.dataBytes + |line| + 2 <= c.maxSize
    ensures Handler(c)(s, Stuff(line)) == Buffered(s, line)
  {
    StuffedLine(line);
  }

  /** While the limit is kept, stuffed lines are buffered as they were before stuffing. */
  lemma {:induction false} LinesAreBuffered(c: Config, s: Session, lines: seq<seq<Byte>>)
    requires s.mode.Data? && NoBreaks(lines) && s.dataBytes + Size(lines) <= c.maxSize
    ensures HandleAll(Handler(c), s, StuffAll(lines)) == BufferedAll(s, lines)
    decreases |lines|
  {
    if lines == [] {
      assert s.dataBuffer + lines == s.dataBuffer;
    } else {
      SizeFromFront(lines);
      assert StuffAll(lines)[1..] == StuffAll(lines[1..]);
      LineIsBuffered(c, s, lines[0]);
      HandleFirst(Handler(c), s, StuffAll(lines));
      LinesAreBuffered(c, Buffered(s, lines[0]), lines[1..]);
      BufferedTwice(s, lines);
    }
  }

  lemma StuffedLinesHaveNoBreaks(lines: seq<seq<Byte>>, last: seq<Byte>)
    requires NoBreaks(lines) && !HasLine(last)
    ensures NoBreaks(StuffAll(lines) + [last])
  {
    forall i | 0 <= i < |lines|
      ensures !HasLine(StuffAll(lines)[i])
    {
      StuffedLine(lines[i]);
    }
  }

  lemma FinalDot(c: Config, s: Session, lines: seq<seq<Byte>>)
    requires s.mode.Data? && s.dataBuffer == [] && s.dataBytes == 0 && NoBreaks(lines) && Size(lines) <= c.maxSize
    ensures HandleAll(Handler(c), s, StuffAll(lines) + [[DOT]]) ==
            s.(mode := Command, dataBuffer := lines, dataBytes := Size(lines),
               dispatched := s.dispatched + [Join(lines)])
  {
    HandleOneMore(Handler(c), s, StuffAll(lines), [DOT]);
    LinesAreBuffered(c, s, lines);
    assert s.dataBuffer + lines == lines;
  }

  /**
   A client that has just been given the go-ahead and sends lines within the limit, stuffed, and
   the final dot has exactly their CRLF join dispatched; what it sends next is read as commands.
   */
  lemma StuffedMessageIsDispatched(c: Config, s: Session, lines: seq<seq<Byte>>, rest: seq<Byte>)
    requires s.mode.Data? && s.dataBuffer == [] && s.dataBytes == 0 && NoBreaks(lines)
    requires Size(lines) <= c.maxSize
    ensures Feed(Handler(c), Stream(s, []), Wire(StuffAll(lines) + [[DOT]], rest)) ==
            Feed(Handler(c), Stream(s.(mode := Command, dataBuffer := lines, dataBytes := Size(lines),
                                       dispatched := s.dispatched + [Join(lines)]), []), rest)
  {
    StuffedLinesHaveNoBreaks(lines, [DOT]);
    LinesAreHandled(Handler(c), s, StuffAll(lines) + [[DOT]], rest);
    FinalDot(c, s, lines);
  }

  lemma LastStraw(c: Config, s: Session, lines: seq<seq<Byte>>, last: seq<Byte>)
    requires s.mode.Data? && s.dataBuffer == [] && s.dataBytes == 0 && !s.closing && NoBreaks(lines) && !HasLine(last)
    requires Size(lines) <= c.maxSize < Size(lines + [last])
    ensures HandleAll(Handler(c), s, StuffAll(lines) + [Stuff(last)]) ==
            s.(mode := Command, dataBuffer := [], dataBytes := Size(lines + [last]),
               replies := s.replies + [Reply(552, "5.3.4 Message size exceeds fixed limit")])
  {
    StuffedLine(last);
    HandleOneMore(Handler(c), s, StuffAll(lines), Stuff(last));
    LinesAreBuffered(c, s, lines);
    assert (lines + [last])[..|lines|] == lines;
  }

  /**
   The line that takes the message over the limit is answered with 552, the message is dropped
   and the session falls back to reading commands.
   */
  lemma OversizedMessageIsRefused(c: Config, s: Session, lines: seq<seq<Byte>>, last: seq<Byte>, rest: seq<Byte>)
    requires s.mode.Data? && s.dataBuffer == [] && s.dataBytes == 0 && !s.closing && NoBreaks(lines) && !HasLine(last)
    requires Size(lines) <= c.maxSize < Size(lines + [last])
    ensures Feed(Handler(c), Stream(s, []), Wire(StuffAll(lines) + [Stuff(last)], rest)) ==
            Feed(Handler(c), Stream(s.(mode := Command, dataBuffer := [], dataBytes := Size(lines + [last]),
                                       replies := s.replies + [Reply(552, "5.3.4 Message size exceeds fixed limit")]),
                                                      []), rest)
  {
    StuffedLine(last);
    StuffedLinesHaveNoBreaks(lines, Stuff(last));
    LinesAreHandled(Handler(c), s, StuffAll(lines) + [Stuff(last)], rest);
    LastStraw(c, s, lines, last);
  }

  // ---------- A message in bytes ----------

  lemma {:induction false} JoinOfLinesIn(b: seq<Byte>)
    ensures Join(LinesIn(b)) == b && LinesIn(b) != []
    decreases |b|
  {
    if HasLine(b) {
      var n := LineEnd(b);
      JoinOfLinesIn(b[n + 2..]);
      JoinFirst(b[..n], LinesIn(b[n + 2..]));
      assert b == b[..n] + CRLF + b[n + 2..];
    }
  }

  lemma JoinFirst(line: seq<Byte>, lines: seq<seq<Byte>>)
    requires lines != []
    ensures Join([line] + lines) == line + CRLF + Join(lines)
  {
    assert ([line] + lines)[1..] == lines;
  }

  /** No line of the text begins with a point. */
  ghost predicate NoPointFirst(b: seq<Byte>) {
    && (b != [] ==> b[0] != 46)
    && forall i :: 0 <= i < |b| - 2 && b[i] == 13 && b[i + 1] == 10 ==> b[i + 2] != 46
  }

  lemma {:induction false} LinesHaveNoPointFirst(b: seq<Byte>)
    requires NoPointFirst(b)
    ensures forall i :: 0 <= i < |LinesIn(b)| ==> Stuff(LinesIn(b)[i]) == LinesIn(b)[i]
    decreases |b|
  {
    if HasLine(b) {
      var n := LineEnd(b);
      var rest := b[n + 2..];
      assert forall i :: 0 <= i < |rest| ==> rest[i] == b[i + n + 2];
      LinesHaveNoPointFirst(rest);
      assert LinesIn(b)[1..] == LinesIn(rest);
    }
  }

  /**
   Bytes sent after the go-ahead, followed by CRLF, a point and CRLF, are dispatched exactly as they
   are, if they are within the limit and no line begins with a point.
   */
  lemma MessageInBytes(c: Config, s: Session, message: seq<Byte>, rest: seq<Byte>) returns (t: Session)
    requires s.mode.Data? && s.dataBuffer == [] && s.dataBytes == 0 && NoPointFirst(message)
    requires |message| + 2 <= c.maxSize
    ensures Feed(Handler(c), Stream(s, []), message + ([13, 10, 46, 13, 10] + rest)) ==
            Feed(Handler(c), Stream(t, []), rest)
    ensures t.dispatched == s.dispatched + [message] && t.mode.Command?
    ensures t.mailFrom == s.mailFrom && t.rcptTo == s.rcptTo && t.submitted == s.submitted && t.replies == s.replies
  {
    var lines := LinesIn(message);
    WireOfLinesIn(message, [46, 13, 10] + rest);
    JoinOfLinesIn(message);
    LinesHaveNoPointFirst(message);
    SizeOfJoin(lines);
    assert StuffAll(lines) == lines;
    WireOneMore(lines, [46], rest);
    assert [13, 10] + ([46, 13, 10] + rest) == [13, 10, 46, 13, 10] + rest;
    assert [46] + (CRLF + rest) == [46, 13, 10] + rest;
    StuffedMessageIsDispatched(c, s, lines, rest);
    t := s.(mode := Command, dataBuffer := lines, dataBytes := Size(lines), dispatched := s.dispatched + [Join(lines)]);
  }

  lemma {:induction false} WireOneMore(lines: seq<seq<Byte>>, last: seq<Byte>, rest: seq<Byte>)
    ensures Wire(lines + [last], rest) == Wire(lines, last + (CRLF + rest))
  {
    if lines == [] {
      assert [last][1..] == [] && lines + [last] == [last];
    } else {
      assert (lines + [last])[1..] == lines[1..] + [last];
      WireOneMore(lines[1..], last, rest);
    }
  }
}
