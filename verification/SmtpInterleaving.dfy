/** What lines and task steps that interleave do to the messages of a session of delivery/smtp_receiver.py. */
module SmtpInterleaving {
  import opened Encodings
  import opened LineProtocol
  import opened SmtpReceiver
  import opened SmtpCommands

  // ---------- Lines and task steps ----------

  /** A line that is received, or a step of a processing task. */
  datatype Piece = Sent(line: seq<Byte>) | TaskBegins(parsed: bool) | TaskEnds(code: nat, text: string)

  function EventOf(p: Piece): Event {
    match p
    case Sent(line) => Received(Wire([line], []))
    case TaskBegins(parsed) => Began(parsed)
    case TaskEnds(code, text) => Finished(code, text)
  }

  function EventsOf(pieces: seq<Piece>): seq<Event> {
    if pieces == [] then [] else [EventOf(pieces[0])] + EventsOf(pieces[1..])
  }

  function StepOf(c: Config, s: Session, p: Piece): Session {
    match p
    case Sent(line) => Handler(c)(s, line)
    case TaskBegins(parsed) => Begin(s, parsed)
    case TaskEnds(code, text) => Finish(s, code, text)
  }

  function StateAfter(c: Config, s: Session, pieces: seq<Piece>): Session
    decreases |pieces|
  {
    if pieces == [] then s else StateAfter(c, StepOf(c, s, pieces[0]), pieces[1..])
  }

  ghost predicate Whole(pieces: seq<Piece>) {
    forall i :: 0 <= i < |pieces| && pieces[i].Sent? ==> !HasLine(pieces[i].line)
  }

  lemma WholeInParts(pieces: seq<Piece>)
    requires pieces != [] && Whole(pieces)
    ensures Whole(pieces[1..]) && (pieces[0].Sent? ==> !HasLine(pieces[0].line))
  {
    assert forall i :: 0 <= i < |pieces| - 1 ==> pieces[1..][i] == pieces[i + 1];
  }

  lemma OneLine(c: Config, s: Session, line: seq<Byte>)
    requires !HasLine(line)
    ensures Next(c, Stream(s, []), EventOf(Sent(line))) == Stream(Handler(c)(s, line), [])
  {
    LinesAreHandled(Handler(c), s, [line], []);
    assert [line][1..] == [];
    NothingFed(Handler(c), Stream(Handler(c)(s, line), []));
  }

  lemma OnePiece(c: Config, s: Session, p: Piece)
    requires p.Sent? ==> !HasLine(p.line)
    ensures Next(c, Stream(s, []), EventOf(p)) == Stream(StepOf(c, s, p), [])
  {
    if p.Sent? {
      OneLine(c, s, p.line);
    }
  }

  /** A session that receives whole lines and runs task steps. */
  lemma {:induction false} RunOfPieces(c: Config, s: Session, pieces: seq<Piece>)
    requires Whole(pieces)
    ensures Run(c, Stream(s, []), EventsOf(pieces)) == Stream(StateAfter(c, s, pieces), [])
    decreases |pieces|
  {
    if pieces != [] {
      WholeInParts(pieces);
      OnePiece(c, s, pieces[0]);
      assert EventsOf(pieces)[1..] == EventsOf(pieces[1..]);
      RunOfPieces(c, StepOf(c, s, pieces[0]), pieces[1..]);
    }
  }

  lemma {:induction false} StateAfterConcat(c: Config, s: Session, a: seq<Piece>, b: seq<Piece>)
    ensures StateAfter(c, s, a + b) == StateAfter(c, StateAfter(c, s, a), b)
    decreases |a|
  {
    if a == [] {
      assert a + b == b;
    } else {
      assert (a + b)[1..] == a[1..] + b;
      StateAfterConcat(c, StepOf(c, s, a[0]), a[1..], b);
    }
  }

  lemma StateAfterOne(c: Config, s: Session, p: Piece)
    ensures StateAfter(c, s, [p]) == StepOf(c, s, p)
  {
    assert [p][1..] == [];
  }

  /** Several lines that arrive together are received one after another, with no task step between them. */
  lemma {:induction false} LinesTogether(c: Config, s: Session, lines: seq<seq<Byte>>)
    requires NoBreaks(lines)
    ensures Next(c, Stream(s, []), Received(Wire(lines, []))) == Stream(HandleAll(Handler(c), s, lines), [])
  {
    LinesAreHandled(Handler(c), s, lines, []);
    NothingFed(Handler(c), Stream(HandleAll(Handler(c), s, lines), []));
  }

  // ---------- A message sent while tasks begin and end ----------

  /** The lines of a message, without their stuffing. */
  function LinesOf(pieces: seq<Piece>): seq<seq<Byte>> {
    if pieces == [] then [] else (if pieces[0].Sent? then [Unstuff(pieces[0].line)] else []) + LinesOf(pieces[1..])
  }

  /** No line is the one that ends a message. */
  ghost predicate NoDot(pieces: seq<Piece>) {
    forall i :: 0 <= i < |pieces| && pieces[i].Sent? ==> pieces[i].line != [DOT]
  }

  /** A task ends while lines of the next message are buffered. */
  predicate Drops(s: Session, p: Piece) {
    p.TaskEnds? && s.finished < s.begun && s.dataBuffer != []
  }

  predicate Interrupted(c: Config, s: Session, pieces: seq<Piece>)
    decreases |pieces|
  {
    pieces != [] && (Drops(s, pieces[0]) || Interrupted(c, StepOf(c, s, pieces[0]), pieces[1..]))
  }

  function Counted(p: Piece): nat {
    if p.Sent? then |Unstuff(p.line)| + 2 else 0
  }

  lemma SizeOfLines(pieces: seq<Piece>)
    requires pieces != []
    ensures Size(LinesOf(pieces)) == Size(LinesOf(pieces[1..])) + Counted(pieces[0])
  {
    var rest := LinesOf(pieces[1..]);
    if pieces[0].Sent? {
      var lines := [Unstuff(pieces[0].line)] + rest;
      assert LinesOf(pieces) == lines && lines[1..] == rest;
      SizeFromFront(lines);
    } else {
      assert LinesOf(pieces) == [] + rest == rest;
    }
  }

  /** What one piece does to the buffer. */
  lemma PieceKept(c: Config, s: Session, p: Piece)
    requires s.mode.Data? && (p.Sent? ==> p.line != [DOT]) && s.dataBytes + Counted(p) <= c.maxSize
    ensures var t := StepOf(c, s, p);
            && t.mode.Data? && t.dispatched == s.dispatched && t.dataBytes == s.dataBytes + Counted(p)
            && t.dataBuffer == if p.Sent? then s.dataBuffer + [Unstuff(p.line)]
                               else if Drops(s, p) then [] else s.dataBuffer
  {
  }

  lemma BufferSize(s: Session, p: Piece)
    ensures p.Sent? ==> Size(s.dataBuffer + [Unstuff(p.line)]) == Size(s.dataBuffer) + Counted(p)
    ensures s.dataBuffer != [] ==> Size(s.dataBuffer) > 0
  {
    if p.Sent? {
      SizeOfOne(s.dataBuffer, Unstuff(p.line));
    }
  }

  /** The lines of a run of pieces, from the lines of the first and of the rest. */
  lemma LinesInParts(buffer: seq<seq<Byte>>, pieces: seq<Piece>)
    requires pieces != []
    ensures (if pieces[0].Sent? then buffer + [Unstuff(pieces[0].line)] else buffer) + LinesOf(pieces[1..])
         == buffer + LinesOf(pieces)
  {
    if pieces[0].Sent? {
      var first := [Unstuff(pieces[0].line)];
      assert buffer + first + LinesOf(pieces[1..]) == buffer + (first + LinesOf(pieces[1..]));
    } else {
      assert LinesOf(pieces) == [] + LinesOf(pieces[1..]) == LinesOf(pieces[1..]);
    }
  }

  lemma NoDotInParts(pieces: seq<Piece>)
    requires pieces != [] && NoDot(pieces)
    ensures NoDot(pieces[1..]) && (pieces[0].Sent? ==> pieces[0].line != [DOT])
  {
    assert forall i :: 0 <= i < |pieces| - 1 ==> pieces[1..][i] == pieces[i + 1];
  }

  /** Without an interruption every line is buffered; with one, some are missing, although all were counted. */
  lemma {:induction false} LinesKept(c: Config, s: Session, pieces: seq<Piece>)
    requires s.mode.Data? && NoDot(pieces) && s.dataBytes + Size(LinesOf(pieces)) <= c.maxSize
    ensures var t := StateAfter(c, s, pieces);
            && t.mode.Data? && t.dataBytes == s.dataBytes + Size(LinesOf(pieces)) && t.dispatched == s.dispatched
            && if Interrupted(c, s, pieces) then Size(t.dataBuffer) < Size(s.dataBuffer) + Size(LinesOf(pieces))
               else t.dataBuffer == s.dataBuffer + LinesOf(pieces)
    ensures Size(StateAfter(c, s, pieces).dataBuffer) <= Size(s.dataBuffer) + Size(LinesOf(pieces))
    decreases |pieces|
  {
    if pieces == [] {
      assert s.dataBuffer + [] == s.dataBuffer;
    } else {
      NoDotInParts(pieces);
      SizeOfLines(pieces);
      PieceKept(c, s, pieces[0]);
      BufferSize(s, pieces[0]);
      LinesInParts(s.dataBuffer, pieces);
      LinesKept(c, StepOf(c, s, pieces[0]), pieces[1..]);
    }
  }

  lemma NoBytesMeansOneBlank(lines: seq<seq<Byte>>)
    requires lines != []
    ensures Size(lines) >= 2 && (Size(lines) == 2 <==> lines == [[]])
  {
    var front := lines[..|lines| - 1];
    assert lines == front + [lines[|lines| - 1]];
    if front != [] {
      assert Size(front) >= 2;
    }
  }

  /** The joined messages are the same exactly when nothing is missing, or a single blank line is. */
  lemma JoinsAgree(kept: seq<seq<Byte>>, lines: seq<seq<Byte>>)
    requires kept == lines || Size(kept) < Size(lines)
    ensures Join(kept) == Join(lines) <==> kept == lines || (kept == [] && lines == [[]])
  {
    SizeOfJoin(kept);
    SizeOfJoin(lines);
    if lines != [] {
      NoBytesMeansOneBlank(lines);
    }
  }

  lemma NothingBelowTwo(lines: seq<seq<Byte>>)
    requires Size(lines) < 2
    ensures lines == []
  {
  }

  /** The session after the final dot. */
  function Ended(s: Session): Session {
    s.(mode := Command, dispatched := s.dispatched + [Join(s.dataBuffer)])
  }

  lemma DotEnds(c: Config, s: Session)
    requires s.mode.Data?
    ensures StepOf(c, s, Sent([DOT])) == Ended(s)
  {
  }

  /**
   The message that the final dot dispatches is the join of all lines sent exactly when no task
   has ended while some of them were buffered, or all there was is one blank line.
   */
  lemma DispatchedIffUninterrupted(c: Config, s: Session, pieces: seq<Piece>)
    requires s.mode.Data? && s.dataBuffer == [] && s.dataBytes == 0
    requires Whole(pieces) && NoDot(pieces) && Size(LinesOf(pieces)) <= c.maxSize
    ensures var t := Run(c, Stream(s, []), EventsOf(pieces + [Sent([DOT])])).state;
            && t.mode.Command? && |t.dispatched| == |s.dispatched| + 1 && t.dispatched[..|s.dispatched|] == s.dispatched
            && (t.dispatched[|s.dispatched|] == Join(LinesOf(pieces)) <==>
                !Interrupted(c, s, pieces) || LinesOf(pieces) == [[]])
  {
    var before := StateAfter(c, s, pieces);
    RunOfPieces(c, s, pieces + [Sent([DOT])]);
    StateAfterConcat(c, s, pieces, [Sent([DOT])]);
    StateAfterOne(c, before, Sent([DOT]));
    LinesKept(c, s, pieces);
    DotEnds(c, before);
    assert [] + LinesOf(pieces) == LinesOf(pieces);
    JoinsAgree(before.dataBuffer, LinesOf(pieces));
    if Interrupted(c, s, pieces) && LinesOf(pieces) == [[]] {
      NothingBelowTwo(before.dataBuffer);
    }
  }

  /** With a task ending between them, the first part of a message is lost and the rest is dispatched alone. */
  lemma FirstPartIsLost(c: Config, s: Session, a: seq<Byte>, b: seq<Byte>, code: nat, text: string)
    requires s.mode.Data? && s.dataBuffer == [] && s.dataBytes == 0 && s.finished < s.begun
    requires !HasLine(a) && !HasLine(b) && |a| + |b| + 4 <= c.maxSize
    ensures var events := EventsOf([Sent(Stuff(a)), TaskEnds(code, text), Sent(Stuff(b)), Sent([DOT])]);
            Run(c, Stream(s, []), events).state.dispatched == s.dispatched + [b]
  {
    var s1 := Buffered(s, a);
    var s2 := Finish(s1, code, text);
    var s3 := Buffered(s2, b);
    StuffedLine(a);
    StuffedLine(b);
    LineIsBuffered(c, s, a);
    LineIsBuffered(c, s2, b);
    DotEnds(c, s3);
    FourPieces(c, s, Sent(Stuff(a)), TaskEnds(code, text), Sent(Stuff(b)), Sent([DOT]), s1, s2, s3, Ended(s3));
    assert s3.dataBuffer == [b];
  }

  lemma FourPieces(c: Config, s: Session, p: Piece, q: Piece, r: Piece, t: Piece,
                   s1: Session, s2: Session, s3: Session, s4: Session)
    requires Whole([p, q, r, t])
    requires StepOf(c, s, p) == s1 && StepOf(c, s1, q) == s2 && StepOf(c, s2, r) == s3 && StepOf(c, s3, t) == s4
    ensures Run(c, Stream(s, []), EventsOf([p, q, r, t])).state == s4
  {
    RunOfPieces(c, s, [p, q, r, t]);
    assert [p, q, r, t] == [p] + ([q] + ([r] + [t]));
    StateAfterConcat(c, s, [p], [q] + ([r] + [t]));
    StateAfterOne(c, s, p);
    StateAfterConcat(c, s1, [q], [r] + [t]);
    StateAfterOne(c, s1, q);
    StateAfterConcat(c, s2, [r], [t]);
    StateAfterOne(c, s2, r);
    StateAfterOne(c, s3, t);
  }

  // ---------- What happens to an envelope ----------

  datatype Envelope = Envelope(sender: string, recipients: seq<string>)

  function EnvelopeOf(s: Session): Envelope {
    Envelope(s.mailFrom, s.rcptTo)
  }

  function Apply(e: Envelope, order: Order): Envelope {
    match order
    case MailFrom(address) => Envelope(address, [])
    case RcptTo(address) => if e.sender == "" then e else e.(recipients := e.recipients + [address])
    case Rset => Envelope("", [])
    case _ => e
  }

  function ApplyAll(e: Envelope, orders: seq<Order>): Envelope {
    if orders == [] then e else Apply(ApplyAll(e, orders[..|orders| - 1]), orders[|orders| - 1])
  }

  /** The order that a piece amounts to: a command line is one, and a task that ends resets the envelope. */
  function OrderOf(c: Config, s: Session, p: Piece): seq<Order> {
    match p
    case Sent(line) => if s.mode.Command? then [ParseCommand(c.decode(line))] else []
    case TaskBegins(_) => []
    case TaskEnds(_, _) => if s.finished < s.begun then [Rset] else []
  }

  function OrdersOf(c: Config, s: Session, pieces: seq<Piece>): seq<Order>
    decreases |pieces|
  {
    if pieces == [] then [] else OrderOf(c, s, pieces[0]) + OrdersOf(c, StepOf(c, s, pieces[0]), pieces[1..])
  }

  lemma {:induction false} ApplyConcat(e: Envelope, a: seq<Order>, b: seq<Order>)
    ensures ApplyAll(e, a + b) == ApplyAll(ApplyAll(e, a), b)
  {
    if b == [] {
      assert a + b == a;
    } else {
      assert (a + b)[..|a + b| - 1] == a + b[..|b| - 1];
      ApplyConcat(e, a, b[..|b| - 1]);
    }
  }

  lemma ApplyOne(e: Envelope, order: Order)
    ensures ApplyAll(e, [order]) == Apply(e, order)
  {
    assert [order][..0] == [];
  }

  /** A line of data leaves the transaction and the submissions alone. */
  lemma DataFrame(c: Config, s: Session, line: seq<Byte>)
    requires s.mode.Data?
    ensures var t := Handler(c)(s, line);
            && EnvelopeOf(t) == EnvelopeOf(s) && t.submitted == s.submitted && t.shared == s.shared
            && t.begun == s.begun && t.finished == s.finished && s.dispatched <= t.dispatched
  {
  }

  lemma EnvelopeFrame(c: Config, s: Session, order: Order, t: Session)
    requires t == Obey(c, s, order)
    ensures EnvelopeOf(t) == Apply(EnvelopeOf(s), order)
  {
  }

  lemma SubmissionsFrame(c: Config, s: Session, order: Order, t: Session)
    requires t == Obey(c, s, order)
    ensures t.submitted == if order.RcptTo? && s.mailFrom != "" then WithRecipients(s.submitted, s.shared, t.rcptTo)
                           else s.submitted
    ensures t.shared == if Restarts(order) then |s.submitted| else s.shared
  {
    if order.RcptTo? {
      RecipientFrame(c, s, order.address, t);
    }
  }

  lemma RecipientFrame(c: Config, s: Session, address: string, t: Session)
    requires t == Obey(c, s, RcptTo(address))
    ensures t.submitted == if s.mailFrom != "" then WithRecipients(s.submitted, s.shared, t.rcptTo) else s.submitted
    ensures t.shared == s.shared
  {
  }

  lemma TasksFrame(c: Config, s: Session, order: Order, t: Session)
    requires t == Obey(c, s, order)
    ensures t.begun == s.begun && t.finished == s.finished && t.dispatched == s.dispatched
  {
    if order.RcptTo? {
      assert Append(s, order.address).begun == s.begun;
    }
  }

  /** What a command does to the transaction, the submissions and the tasks. */
  lemma CommandFrame(c: Config, s: Session, line: seq<Byte>)
    requires s.mode.Command?
    ensures var order, t := ParseCommand(c.decode(line)), Handler(c)(s, line);
            && EnvelopeOf(t) == Apply(EnvelopeOf(s), order)
            && t.submitted == (if order.RcptTo? && s.mailFrom != "" then WithRecipients(s.submitted, s.shared, t.rcptTo)
                               else s.submitted)
            && t.shared == (if Restarts(order) then |s.submitted| else s.shared)
            && t.begun == s.begun && t.finished == s.finished && t.dispatched == s.dispatched
  {
    var order, t := ParseCommand(c.decode(line)), Handler(c)(s, line);
    EnvelopeFrame(c, s, order, t);
    SubmissionsFrame(c, s, order, t);
    TasksFrame(c, s, order, t);
  }

  lemma EnvelopeAfterStep(c: Config, s: Session, p: Piece)
    ensures EnvelopeOf(StepOf(c, s, p)) == ApplyAll(EnvelopeOf(s), OrderOf(c, s, p))
  {
    match p
    case Sent(line) =>
      if s.mode.Command? {
        CommandFrame(c, s, line);
        ApplyOne(EnvelopeOf(s), ParseCommand(c.decode(line)));
      } else {
        DataFrame(c, s, line);
      }
    case TaskBegins(_) =>
    case TaskEnds(_, _) => ApplyOne(EnvelopeOf(s), Rset);
  }

  lemma {:induction false} EnvelopeAfter(c: Config, s: Session, pieces: seq<Piece>)
    ensures EnvelopeOf(StateAfter(c, s, pieces)) == ApplyAll(EnvelopeOf(s), OrdersOf(c, s, pieces))
    decreases |pieces|
  {
    if pieces != [] {
      var next := StepOf(c, s, pieces[0]);
      EnvelopeAfterStep(c, s, pieces[0]);
      EnvelopeAfter(c, next, pieces[1..]);
      ApplyConcat(EnvelopeOf(s), OrderOf(c, s, pieces[0]), OrdersOf(c, next, pieces[1..]));
    }
  }

  // ---------- When the orders leave an envelope as it was ----------

  predicate Restarts(order: Order) {
    order.MailFrom? || order.Rset?
  }

  /** How many orders there are up to and with the last MAIL or RSET. */
  function LastRestart(orders: seq<Order>): (k: nat)
    ensures k <= |orders| && (k > 0 ==> Restarts(orders[k - 1]))
  {
    if orders == [] then 0
    else if Restarts(orders[|orders| - 1]) then |orders|
    else LastRestart(orders[..|orders| - 1])
  }

  /** The recipients that the orders name. */
  function Named(orders: seq<Order>): seq<string> {
    if orders == [] then []
    else
      var last := orders[|orders| - 1];
      Named(orders[..|orders| - 1]) + if last.RcptTo? then [last.address] else []
  }

  function Restarted(e: Envelope, orders: seq<Order>): Envelope {
    var k := LastRestart(orders);
    if k == 0 then e else if orders[k - 1].MailFrom? then Envelope(orders[k - 1].address, []) else Envelope("", [])
  }

  /** The envelope with more recipients, which are refused if it has no sender. */
  function Accepting(e: Envelope, recipients: seq<string>): Envelope {
    Envelope(e.sender, e.recipients + if e.sender == "" then [] else recipients)
  }

  lemma AcceptOneMore(e: Envelope, recipients: seq<string>, order: Order)
    requires !Restarts(order)
    ensures Apply(Accepting(e, recipients), order) ==
            Accepting(e, recipients + if order.RcptTo? then [order.address] else [])
  {
    assert recipients + [] == recipients;
    if order.RcptTo? {
      assert e.recipients + recipients + [order.address] == e.recipients + (recipients + [order.address]);
    }
  }

  /** What follows the last MAIL or RSET, when one more order comes that is neither. */
  lemma OneMoreNamed(orders: seq<Order>)
    requires orders != [] && !Restarts(orders[|orders| - 1])
    ensures var front, last, k := orders[..|orders| - 1], orders[|orders| - 1], LastRestart(orders);
            && LastRestart(front) == k
            && Named(orders[k..]) == Named(front[k..]) + if last.RcptTo? then [last.address] else []
  {
    var k := LastRestart(orders);
    assert orders[k..][..|orders| - k - 1] == orders[..|orders| - 1][k..];
  }

  /** The last MAIL or RSET fixes the sender, and the recipients named after it are accepted if there is one. */
  lemma {:induction false} EnvelopeFromLastRestart(e: Envelope, orders: seq<Order>)
    ensures ApplyAll(e, orders) == Accepting(Restarted(e, orders), Named(orders[LastRestart(orders)..]))
  {
    var k := LastRestart(orders);
    if k == |orders| {
      assert orders[k..] == [];
      assert e.recipients + [] == e.recipients;
    } else {
      var front, last := orders[..|orders| - 1], orders[|orders| - 1];
      OneMoreNamed(orders);
      EnvelopeFromLastRestart(e, front);
      AcceptOneMore(Restarted(e, front), Named(front[k..]), last);
    }
  }

  /**
   The last MAIL or RSET names the sender that there was, and the recipients named after it are
   those that there were; without a MAIL or RSET, no recipient is accepted.
   */
  predicate Restores(e: Envelope, orders: seq<Order>) {
    var k := LastRestart(orders);
    if k == 0 then e.sender == "" || Named(orders) == []
    else
      var sender := if orders[k - 1].MailFrom? then orders[k - 1].address else "";
      sender == e.sender && e.recipients == if sender == "" then [] else Named(orders[k..])
  }

  lemma RestoredIff(e: Envelope, orders: seq<Order>)
    ensures ApplyAll(e, orders) == e <==> Restores(e, orders)
  {
    EnvelopeFromLastRestart(e, orders);
    if LastRestart(orders) == 0 {
      assert orders[0..] == orders;
      assert e.recipients + [] == e.recipients;
      if Named(orders) != [] {
        assert |e.recipients + Named(orders)| > |e.recipients|;
      }
    } else {
      assert [] + Named(orders[LastRestart(orders)..]) == Named(orders[LastRestart(orders)..]);
    }
  }

  // ---------- The envelope a message is submitted with ----------

  function Begins(pieces: seq<Piece>): nat {
    if pieces == [] then 0 else (if pieces[0].TaskBegins? then 1 else 0) + Begins(pieces[1..])
  }

  lemma StepCounts(c: Config, s: Session, p: Piece)
    requires p.TaskBegins? ==> s.begun < |s.dispatched|
    ensures var t := StepOf(c, s, p);
            t.begun == s.begun + (if p.TaskBegins? then 1 else 0) && s.dispatched <= t.dispatched
  {
    if p.Sent? {
      LineFrame(c, s, p.line);
    }
  }

  lemma LineFrame(c: Config, s: Session, line: seq<Byte>)
    ensures Handler(c)(s, line).begun == s.begun && s.dispatched <= Handler(c)(s, line).dispatched
  {
    if s.mode.Command? {
      CommandFrame(c, s, line);
    } else {
      DataFrame(c, s, line);
    }
  }

  lemma {:induction false} TasksInOrder(c: Config, s: Session, pieces: seq<Piece>)
    requires s.begun + Begins(pieces) <= |s.dispatched|
    ensures var t := StateAfter(c, s, pieces); t.begun == s.begun + Begins(pieces) && s.dispatched <= t.dispatched
    decreases |pieces|
  {
    if pieces != [] {
      StepCounts(c, s, pieces[0]);
      TasksInOrder(c, StepOf(c, s, pieces[0]), pieces[1..]);
    }
  }

  function OwnSubmission(s: Session): Submission {
    Submission(s.mailFrom, s.rcptTo, Join(s.dataBuffer))
  }

  /**
   Between the final dot of a message and the start of its task anything may happen, tasks of
   earlier messages included.  The message is submitted under its own envelope exactly when the
   orders in between leave that envelope as it was.
   */
  lemma OwnEnvelopeIffRestored(c: Config, s: Session, between: seq<Piece>)
    requires s.mode.Data? && Whole(between) && s.begun + Begins(between) == |s.dispatched|
    ensures var u := Run(c, Stream(s, []), EventsOf([Sent([DOT])] + between)).state;
            var t := Run(c, Stream(s, []), EventsOf([Sent([DOT])] + between + [TaskBegins(true)])).state;
            && |t.submitted| == |u.submitted| + 1 && t.submitted[|u.submitted|].raw == Join(s.dataBuffer)
            && (t.submitted[|u.submitted|] == OwnSubmission(s) <==>
                Restores(EnvelopeOf(s), OrdersOf(c, Ended(s), between)))
  {
    var dot, task := Sent([DOT]), TaskBegins(true);
    var u := StateAfter(c, Ended(s), between);
    RunOfPieces(c, s, [dot] + between);
    RunOfPieces(c, s, [dot] + between + [task]);
    DotEnds(c, s);
    assert ([dot] + between)[1..] == between;
    StateAfterConcat(c, s, [dot] + between, [task]);
    StateAfterOne(c, u, task);
    TasksInOrder(c, Ended(s), between);
    assert u.dispatched[|s.dispatched|] == Ended(s).dispatched[|s.dispatched|];
    EnvelopeAfter(c, Ended(s), between);
    RestoredIff(EnvelopeOf(s), OrdersOf(c, Ended(s), between));
  }

  /** The lines of a second transaction, from its MAIL to its final dot. */
  function Transaction(mail: seq<Byte>, rcpt: seq<Byte>, data: seq<Byte>, text: seq<Byte>): seq<seq<Byte>> {
    [mail, rcpt, data, Stuff(text), [DOT]]
  }

  /**
   When MAIL FROM:<a>, RCPT TO:<b>, DATA and a second message arrive together with the end of the
   first, both go out under the second's envelope.
   */
  lemma FirstUnderSecondsEnvelope(c: Config, s: Session, mail: seq<Byte>, rcpt: seq<Byte>, data: seq<Byte>,
                                  text: seq<Byte>, sender: string, recipient: string)
    requires s.mode.Data? && s.begun == |s.dispatched| && sender != "" && |text| + 2 <= c.maxSize
    requires !HasLine(mail) && !HasLine(rcpt) && !HasLine(data) && !HasLine(text)
    requires Brackets(c.decode(mail), "MAIL FROM:", sender) && Unbracketed(sender)
    requires Brackets(c.decode(rcpt), "RCPT TO:", recipient) && Unbracketed(recipient)
    requires Says(c.decode(data), "DATA")
    ensures var chunk := Wire([[DOT]] + Transaction(mail, rcpt, data, text), []);
            Run(c, Stream(s, []), [Received(chunk), Began(true), Began(true)]).state.submitted ==
            s.submitted + [Submission(sender, [recipient], Join(s.dataBuffer)), Submission(sender, [recipient], text)]
  {
    var lines := [[DOT]] + Transaction(mail, rcpt, data, text);
    MailIsParsed(c.decode(mail), sender);
    RcptIsParsed(c.decode(rcpt), recipient);
    WordIsSeen(c.decode(data), "DATA");
    var t := SecondDispatched(c, s, mail, rcpt, data, text, sender, recipient);
    NoBreaksInside(mail, rcpt, data, text);
    LinesTogether(c, s, lines);
    BothBegin(c, s, Received(Wire(lines, [])), t);
  }

  lemma NoBreaksInside(mail: seq<Byte>, rcpt: seq<Byte>, data: seq<Byte>, text: seq<Byte>)
    requires !HasLine(mail) && !HasLine(rcpt) && !HasLine(data) && !HasLine(text)
    ensures NoBreaks([[DOT]] + Transaction(mail, rcpt, data, text))
  {
    StuffedLine(text);
    assert !HasLine([DOT]);
  }

  lemma BothBegin(c: Config, s: Session, chunk: Event, t: Session)
    requires Next(c, Stream(s, []), chunk) == Stream(t, [])
    ensures Run(c, Stream(s, []), [chunk, Began(true), Began(true)]).state == Begin(Begin(t, true), true)
  {
    var t1 := Begin(t, true);
    assert [chunk, Began(true), Began(true)][1..] == [Began(true), Began(true)];
    assert [Began(true), Began(true)][1..] == [Began(true)] && [Began(true)][1..] == [];
    assert Run(c, Stream(t, []), [Began(true), Began(true)]) == Run(c, Stream(t1, []), [Began(true)]);
    assert Run(c, Stream(t1, []), [Began(true)]) == Run(c, Stream(Begin(t1, true), []), []);
  }

  lemma SecondDispatched(c: Config, s: Session, mail: seq<Byte>, rcpt: seq<Byte>, data: seq<Byte>, text: seq<Byte>,
                         sender: string, recipient: string) returns (t: Session)
    requires s.mode.Data? && s.begun == |s.dispatched| && sender != "" && |text| + 2 <= c.maxSize && !HasLine(text)
    requires ParseCommand(c.decode(mail)) == MailFrom(sender) && ParseCommand(c.decode(rcpt)) == RcptTo(recipient)
    requires ParseCommand(c.decode(data)) == StartData
    ensures t == HandleAll(Handler(c), s, [[DOT]] + Transaction(mail, rcpt, data, text))
    ensures t.mailFrom == sender && t.rcptTo == [recipient] && t.submitted == s.submitted && t.begun == s.begun
    ensures t.dispatched == s.dispatched + [Join(s.dataBuffer), text]
  {
    var s1 := Ended(s);
    var s2 := Obey(c, s1, MailFrom(sender));
    var s3 := Obey(c, s2, RcptTo(recipient));
    var s4 := Obey(c, s3, StartData);
    var s5 := Buffered(s4, text);
    t := Ended(s5);
    DotEnds(c, s);
    LineIsBuffered(c, s4, text);
    DotEnds(c, s5);
    SixLines(Handler(c), s, [DOT], mail, rcpt, data, Stuff(text), [DOT], s1, s2, s3, s4, s5);
    NoneShared(s2, s3.rcptTo);
  }

  lemma SixLines<S>(handle: (S, seq<Byte>) -> S, s: S,
                    a: seq<Byte>, b: seq<Byte>, c: seq<Byte>, d: seq<Byte>, e: seq<Byte>, f: seq<Byte>,
                    s1: S, s2: S, s3: S, s4: S, s5: S)
    requires handle(s, a) == s1 && handle(s1, b) == s2 && handle(s2, c) == s3 && handle(s3, d) == s4
             && handle(s4, e) == s5
    ensures HandleAll(handle, s, [a] + [b, c, d, e, f]) == handle(s5, f)
  {
    HandleFirst(handle, s, [a] + [b, c, d, e, f]);
    assert ([a] + [b, c, d, e, f])[1..] == [b, c, d, e, f];
    HandleFirst(handle, s1, [b, c, d, e, f]);
    assert [b, c, d, e, f][1..] == [c, d, e, f];
    HandleFirst(handle, s2, [c, d, e, f]);
    assert [c, d, e, f][1..] == [d, e, f];
    HandleFirst(handle, s3, [d, e, f]);
    assert [d, e, f][1..] == [e, f];
    HandleFirst(handle, s4, [e, f]);
    assert [e, f][1..] == [f];
    HandleFirst(handle, s5, [f]);
    assert [f][1..] == [];
  }

  lemma NoneShared(s: Session, recipients: seq<string>)
    requires s.shared == |s.submitted|
    ensures WithRecipients(s.submitted, s.shared, recipients) == s.submitted
  {
  }

  // ---------- The recipients of a message in process ----------

  /** How many orders there are before the first MAIL or RSET. */
  function FirstRestart(orders: seq<Order>): (k: nat)
    ensures k <= |orders|
  {
    if orders == [] || Restarts(orders[0]) then 0 else 1 + FirstRestart(orders[1..])
  }

  /** The recipients that are added to the list that the session has now. */
  function Gained(s: Session, orders: seq<Order>): seq<string> {
    if s.mailFrom == "" then [] else Named(orders[..FirstRestart(orders)])
  }

  /** The submissions from `shared` on have the session's recipients. */
  ghost predicate Sharing(s: Session) {
    s.shared <= |s.submitted| && forall i :: s.shared <= i < |s.submitted| ==> s.submitted[i].envelopeTo == s.rcptTo
  }

  /** What one step does to a submission that was made before. */
  ghost predicate Follows(s: Session, next: Session, orders: seq<Order>, i: nat)
    requires i < |s.submitted| <= |next.submitted|
  {
    var a, b := s.submitted[i], next.submitted[i];
    && b.raw == a.raw && b.envelopeFrom == a.envelopeFrom
    && b.envelopeTo == a.envelopeTo + (if i < s.shared then [] else Gained(s, orders))
    && (i < s.shared ==> i < next.shared)
    && (i >= s.shared ==> if orders != [] && Restarts(orders[0]) then i < next.shared
                          else i >= next.shared && next.mailFrom == s.mailFrom)
  }

  lemma GainedByOne(s: Session, order: Order)
    ensures Gained(s, [order]) == if s.mailFrom != "" && order.RcptTo? then [order.address] else []
  {
    assert [order][1..] == [] && [order][..1] == [order] && [order][..0] == [];
    assert Named([order]) == Named([]) + if order.RcptTo? then [order.address] else [];
  }

  lemma CommandFollows(c: Config, s: Session, line: seq<Byte>, i: nat)
    requires s.mode.Command? && Sharing(s) && i < |s.submitted|
    ensures var t := Handler(c)(s, line); Sharing(t) && |t.submitted| == |s.submitted|
    ensures Follows(s, Handler(c)(s, line), [ParseCommand(c.decode(line))], i)
  {
    var order, t := ParseCommand(c.decode(line)), Handler(c)(s, line);
    CommandFrame(c, s, line);
    GainedByOne(s, order);
    FollowsFrame(s, t, order, i);
  }

  lemma FollowsFrame(s: Session, t: Session, order: Order, i: nat)
    requires Sharing(s) && i < |s.submitted| && EnvelopeOf(t) == Apply(EnvelopeOf(s), order)
    requires t.submitted == if order.RcptTo? && s.mailFrom != "" then WithRecipients(s.submitted, s.shared, t.rcptTo)
                            else s.submitted
    requires t.shared == if Restarts(order) then |s.submitted| else s.shared
    requires Gained(s, [order]) == if s.mailFrom != "" && order.RcptTo? then [order.address] else []
    ensures Sharing(t) && |t.submitted| == |s.submitted| && Follows(s, t, [order], i)
  {
    SharingKept(s, t, order);
    assert s.submitted[i].envelopeTo + [] == s.submitted[i].envelopeTo;
  }

  lemma SharingKept(s: Session, t: Session, order: Order)
    requires Sharing(s) && EnvelopeOf(t) == Apply(EnvelopeOf(s), order)
    requires t.submitted == if order.RcptTo? && s.mailFrom != "" then WithRecipients(s.submitted, s.shared, t.rcptTo)
                            else s.submitted
    requires t.shared == if Restarts(order) then |s.submitted| else s.shared
    ensures Sharing(t) && |t.submitted| == |s.submitted|
  {
  }

  lemma StepKeepsSharing(c: Config, s: Session, p: Piece)
    requires Sharing(s)
    ensures Sharing(StepOf(c, s, p)) && |s.submitted| <= |StepOf(c, s, p).submitted|
  {
    if p.Sent? {
      LineKeepsSharing(c, s, p.line);
    }
  }

  lemma LineKeepsSharing(c: Config, s: Session, line: seq<Byte>)
    requires Sharing(s)
    ensures Sharing(Handler(c)(s, line)) && |Handler(c)(s, line).submitted| == |s.submitted|
  {
    if s.mode.Command? {
      CommandFrame(c, s, line);
    } else {
      DataFrame(c, s, line);
    }
  }

  lemma StepOfSubmission(c: Config, s: Session, p: Piece, i: nat)
    requires Sharing(s) && i < |s.submitted|
    ensures |s.submitted| <= |StepOf(c, s, p).submitted| && Follows(s, StepOf(c, s, p), OrderOf(c, s, p), i)
  {
    var a := s.submitted[i].envelopeTo;
    assert a + [] == a && Named([]) == [];
    match p
    case Sent(line) =>
      if s.mode.Command? {
        CommandFollows(c, s, line, i);
      } else {
        DataFrame(c, s, line);
      }
    case TaskBegins(_) =>
    case TaskEnds(_, _) => GainedByOne(s, Rset);
  }

  lemma {:induction false} NamedConcat(a: seq<Order>, b: seq<Order>)
    ensures Named(a + b) == Named(a) + Named(b)
  {
    if b == [] {
      assert a + b == a && Named(a) + [] == Named(a);
    } else {
      assert (a + b)[..|a + b| - 1] == a + b[..|b| - 1];
      NamedConcat(a, b[..|b| - 1]);
    }
  }

  lemma FirstRestartLater(order: Order, rest: seq<Order>, k: nat)
    requires !Restarts(order) && k == FirstRestart(rest)
    ensures FirstRestart([order] + rest) == 1 + k && ([order] + rest)[..1 + k] == [order] + rest[..k]
    ensures FirstRestart([order]) == 1 && [order][..1] == [order]
  {
    assert ([order] + rest)[1..] == rest && [order][1..] == [];
  }

  lemma GainedConcat(first: seq<Order>, rest: seq<Order>)
    requires |first| <= 1
    ensures var k := FirstRestart(first + rest);
            Named((first + rest)[..k]) == Named(first[..FirstRestart(first)]) +
            if first != [] && Restarts(first[0]) then [] else Named(rest[..FirstRestart(rest)])
  {
    if first == [] {
      assert first + rest == rest && [] + Named(rest[..FirstRestart(rest)]) == Named(rest[..FirstRestart(rest)]);
    } else if Restarts(first[0]) {
      assert (first + rest)[..0] == [];
    } else {
      var k := FirstRestart(rest);
      assert first == [first[0]];
      FirstRestartLater(first[0], rest, k);
      NamedConcat(first, rest[..k]);
    }
  }

  /**
   A submission keeps its message and its sender; its recipients grow by those that are accepted
   before the session's list is replaced, if the submission has that list.
   */
  lemma {:induction false} RecipientsAreLive(c: Config, s: Session, pieces: seq<Piece>, i: nat)
    requires Sharing(s) && i < |s.submitted|
    ensures i < |StateAfter(c, s, pieces).submitted|
    ensures var a, b := s.submitted[i], StateAfter(c, s, pieces).submitted[i];
            && b.raw == a.raw && b.envelopeFrom == a.envelopeFrom
            && b.envelopeTo == a.envelopeTo + (if i < s.shared then [] else Gained(s, OrdersOf(c, s, pieces)))
    decreases |pieces|
  {
    var a := s.submitted[i].envelopeTo;
    if pieces == [] {
      assert a + [] == a;
    } else {
      var next := StepOf(c, s, pieces[0]);
      var first, rest := OrderOf(c, s, pieces[0]), OrdersOf(c, next, pieces[1..]);
      StepKeepsSharing(c, s, pieces[0]);
      StepOfSubmission(c, s, pieces[0], i);
      RecipientsAreLive(c, next, pieces[1..], i);
      GainedConcat(first, rest);
      assert a + [] + [] == a;
      assert forall x: seq<string>, y: seq<string> :: (a + x) + y == a + (x + y);
    }
  }

  /**
   A submission keeps its recipients exactly when it does not have the session's list, or that has
   no sender, or no recipient is named before the next MAIL, RSET or end of a task.
   */
  lemma RecipientsKeptIff(c: Config, s: Session, pieces: seq<Piece>, i: nat)
    requires Sharing(s) && i < |s.submitted| && Whole(pieces)
    ensures var t := Run(c, Stream(s, []), EventsOf(pieces)).state;
            && i < |t.submitted|
            && (t.submitted[i] == s.submitted[i] <==> i < s.shared || Gained(s, OrdersOf(c, s, pieces)) == [])
  {
    RunOfPieces(c, s, pieces);
    RecipientsAreLive(c, s, pieces, i);
    var a, gained := s.submitted[i].envelopeTo, if i < s.shared then [] else Gained(s, OrdersOf(c, s, pieces));
    assert |a + gained| == |a| + |gained| && a + [] == a;
  }
}
