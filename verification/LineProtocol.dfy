/**
 Reassembly of CRLF-terminated lines from a byte stream that arrives in chunks
 (delivery/smtp_receiver.py, data_received), for any handler of lines.
 */
module LineProtocol {
  import opened Encodings

  const CR: Byte := 13
  const LF: Byte := 10
  const CRLF: seq<Byte> := [CR, LF]

  /** The position of the first CRLF, or the length of b if there is none. */
  function LineEnd(b: seq<Byte>): (n: nat)
    ensures n <= |b|
    ensures n < |b| ==> n + 2 <= |b| && b[n] == CR && b[n + 1] == LF
  {
    if |b| < 2 then |b| else if b[0] == CR && b[1] == LF then 0 else 1 + LineEnd(b[1..])
  }

  predicate HasLine(b: seq<Byte>) {
    LineEnd(b) < |b|
  }

  /** A handler's state together with the bytes not yet made into a line. */
  datatype Stream<S> = Stream(state: S, buffer: seq<Byte>)

  function Drain<S>(handle: (S, seq<Byte>) -> S, s: Stream<S>): Stream<S>
    decreases |s.buffer|
  {
    if !HasLine(s.buffer) then s
    else
      var n := LineEnd(s.buffer);
      Drain(handle, Stream(handle(s.state, s.buffer[..n]), s.buffer[n + 2..]))
  }

  lemma DrainOnce<S>(handle: (S, seq<Byte>) -> S, s: Stream<S>, n: nat, next: Stream<S>)
    requires HasLine(s.buffer) && n == LineEnd(s.buffer)
    requires next == Stream(handle(s.state, s.buffer[..n]), s.buffer[n + 2..])
    ensures Drain(handle, s) == Drain(handle, next)
  {
  }

  lemma DrainStops<S>(handle: (S, seq<Byte>) -> S, s: Stream<S>)
    requires !HasLine(s.buffer)
    ensures Drain(handle, s) == s
  {
  }

  function Feed<S>(handle: (S, seq<Byte>) -> S, s: Stream<S>, data: seq<Byte>): Stream<S> {
    Drain(handle, s.(buffer := s.buffer + data))
  }

  function FeedAll<S>(handle: (S, seq<Byte>) -> S, s: Stream<S>, chunks: seq<seq<Byte>>): Stream<S>
    decreases |chunks|
  {
    if chunks == [] then s else FeedAll(handle, Feed(handle, s, chunks[0]), chunks[1..])
  }

  function Flatten(chunks: seq<seq<Byte>>): seq<Byte> {
    if chunks == [] then [] else chunks[0] + Flatten(chunks[1..])
  }

  /** More input does not move the first CRLF. */
  lemma {:induction false} LineEndStays(b: seq<Byte>, more: seq<Byte>)
    requires HasLine(b)
    ensures LineEnd(b + more) == LineEnd(b)
  {
    if !(b[0] == CR && b[1] == LF) {
      assert (b + more)[1..] == b[1..] + more;
      LineEndStays(b[1..], more);
    }
  }

  lemma {:induction false} DrainLeavesNoLine<S>(handle: (S, seq<Byte>) -> S, s: Stream<S>)
    ensures !HasLine(Drain(handle, s).buffer)
    decreases |s.buffer|
  {
    if HasLine(s.buffer) {
      var n := LineEnd(s.buffer);
      DrainLeavesNoLine(handle, Stream(handle(s.state, s.buffer[..n]), s.buffer[n + 2..]));
    }
  }

  lemma SlicesOfConcat(b: seq<Byte>, more: seq<Byte>, n: nat)
    requires n + 2 <= |b|
    ensures (b + more)[..n] == b[..n]
    ensures (b + more)[n + 2..] == b[n + 2..] + more
  {
  }

  /** Draining before more bytes arrive does not change what draining afterwards gives. */
  lemma {:induction false} DrainEarly<S>(handle: (S, seq<Byte>) -> S, s: Stream<S>, more: seq<Byte>)
    ensures Feed(handle, Drain(handle, s), more) == Feed(handle, s, more)
    decreases |s.buffer|
  {
    if HasLine(s.buffer) {
      var n := LineEnd(s.buffer);
      LineEndStays(s.buffer, more);
      SlicesOfConcat(s.buffer, more, n);
      DrainEarly(handle, Stream(handle(s.state, s.buffer[..n]), s.buffer[n + 2..]), more);
    }
  }

  /** Feeding two chunks is feeding their concatenation. */
  lemma TwoChunks<S>(handle: (S, seq<Byte>) -> S, s: Stream<S>, a: seq<Byte>, b: seq<Byte>)
    ensures Feed(handle, Feed(handle, s, a), b) == Feed(handle, s, a + b)
    ensures !HasLine(Feed(handle, s, a).buffer)
  {
    var joined := s.(buffer := s.buffer + a);
    DrainLeavesNoLine(handle, joined);
    DrainEarly(handle, joined, b);
    assert s.buffer + a + b == s.buffer + (a + b);
  }

  lemma NothingFed<S>(handle: (S, seq<Byte>) -> S, s: Stream<S>)
    requires !HasLine(s.buffer)
    ensures Feed(handle, s, []) == s
  {
    assert s.buffer + [] == s.buffer;
  }

  /** However a byte stream is cut into chunks, the handler ends in the same state. */
  lemma {:induction false} ChunkingIsIrrelevant<S>(handle: (S, seq<Byte>) -> S, s: Stream<S>, chunks: seq<seq<Byte>>)
    requires !HasLine(s.buffer)
    ensures FeedAll(handle, s, chunks) == Feed(handle, s, Flatten(chunks))
    decreases |chunks|
  {
    if chunks == [] {
      NothingFed(handle, s);
    } else {
      TwoChunks(handle, s, chunks[0], Flatten(chunks[1..]));
      ChunkingIsIrrelevant(handle, Feed(handle, s, chunks[0]), chunks[1..]);
    }
  }

  lemma {:induction false} LineEndOf(line: seq<Byte>, rest: seq<Byte>)
    requires !HasLine(line)
    ensures LineEnd(line + (CRLF + rest)) == |line|
  {
    var b := line + (CRLF + rest);
    if line == [] {
      assert b[0] == CR && b[1] == LF;
    } else {
      assert b[1..] == line[1..] + (CRLF + rest) && b[0] == line[0];
      assert |line| > 1 ==> b[1] == line[1];
      LineEndOf(line[1..], rest);
    }
  }

  /** One whole line at the front of the input is handled first. */
  lemma DrainLine<S>(handle: (S, seq<Byte>) -> S, state: S, line: seq<Byte>, rest: seq<Byte>)
    requires !HasLine(line)
    ensures Drain(handle, Stream(state, line + (CRLF + rest))) == Drain(handle, Stream(handle(state, line), rest))
  {
    LineEndOf(line, rest);
    var b := line + (CRLF + rest);
    assert b[..|line|] == line && b[|line| + 2..] == rest;
  }

  /** The lines as they go over the wire, and what comes after them. */
  function Wire(lines: seq<seq<Byte>>, rest: seq<Byte>): seq<Byte> {
    if lines == [] then rest else lines[0] + (CRLF + Wire(lines[1..], rest))
  }

  function HandleAll<S>(handle: (S, seq<Byte>) -> S, state: S, lines: seq<seq<Byte>>): S
    decreases |lines|
  {
    if lines == [] then state else HandleAll(handle, handle(state, lines[0]), lines[1..])
  }

  lemma HandleFirst<S>(handle: (S, seq<Byte>) -> S, state: S, lines: seq<seq<Byte>>)
    requires lines != []
    ensures HandleAll(handle, state, lines) == HandleAll(handle, handle(state, lines[0]), lines[1..])
  {
  }

  /** Whole lines sent are whole lines handled. */
  lemma {:induction false} LinesAreHandled<S>(handle: (S, seq<Byte>) -> S, state: S, lines: seq<seq<Byte>>,
                                              rest: seq<Byte>)
    requires forall i :: 0 <= i < |lines| ==> !HasLine(lines[i])
    ensures Feed(handle, Stream(state, []), Wire(lines, rest)) ==
            Feed(handle, Stream(HandleAll(handle, state, lines), []), rest)
    decreases |lines|
  {
    if lines != [] {
      var more := Wire(lines[1..], rest);
      DrainLine(handle, state, lines[0], more);
      LinesAreHandled(handle, handle(state, lines[0]), lines[1..], rest);
      assert [] + (lines[0] + (CRLF + more)) == lines[0] + (CRLF + more) && [] + more == more;
    }
  }

  lemma {:induction false} HandleOneMore<S>(handle: (S, seq<Byte>) -> S, state: S, lines: seq<seq<Byte>>,
                                            last: seq<Byte>)
    ensures HandleAll(handle, state, lines + [last]) == handle(HandleAll(handle, state, lines), last)
    decreases |lines|
  {
    if lines != [] {
      assert (lines + [last])[1..] == lines[1..] + [last];
      HandleOneMore(handle, handle(state, lines[0]), lines[1..], last);
    }
  }

  // ---------- Bytes and lines ----------

  /** The lines of a text that ends without a CRLF. */
  function LinesIn(b: seq<Byte>): seq<seq<Byte>>
    decreases |b|
  {
    if HasLine(b) then [b[..LineEnd(b)]] + LinesIn(b[LineEnd(b) + 2..]) else [b]
  }

  /** Cutting bytes into lines and sending those is sending the bytes. */
  lemma {:induction false} WireOfLinesIn(b: seq<Byte>, rest: seq<Byte>)
    ensures Wire(LinesIn(b), rest) == b + ([13, 10] + rest)
    ensures forall i :: 0 <= i < |LinesIn(b)| ==> !HasLine(LinesIn(b)[i])
    decreases |b|
  {
    if HasLine(b) {
      var n := LineEnd(b);
      WireOfLinesIn(b[n + 2..], rest);
      NoLineBefore(b);
      assert LinesIn(b)[1..] == LinesIn(b[n + 2..]);
      assert b == b[..n] + [13, 10] + b[n + 2..];
    } else {
      assert [b][1..] == [];
    }
  }

  lemma {:induction false} NoLineBefore(b: seq<Byte>)
    requires HasLine(b)
    ensures !HasLine(b[..LineEnd(b)])
  {
    if !(b[0] == CR && b[1] == LF) {
      NoLineBefore(b[1..]);
      assert b[..LineEnd(b)][1..] == b[1..][..LineEnd(b[1..])];
    }
  }
}
