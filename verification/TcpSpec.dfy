/**
 The receiving side of servers/tcpip/tcp.c on values: what one segment or one
 read does to a connection, and what every run of them guarantees to the reader.
 Section 3.3 of RFC 793 numbers the octets of the stream.
 */
module TcpSpec {
  import opened Common

  const RX_BUF_SIZE := 8192

  datatype State = SynSent | SynRecved | Established | CloseWait | LastAck | Closed

  /** The part of `struct tcp_socket` that receiving works on. */
  datatype Socket = Socket(
    state: State,
    pendAck: bool, pendFin: bool, pendSyn: bool,
    nextSeqno: nat,
    lastAck: nat,
    winsize: int,
    rx: Bytes,
    tx: Bytes)

  /** What tcp_process() looks at in a segment. */
  datatype Segment = Segment(seqno: nat, ack: nat, isSyn: bool, isAck: bool, isFin: bool, payload: Bytes)

  datatype Outcome = Discarded | Dropped | NewClient | Received | Quiet

  predicate WellFormed(g: Segment) {
    g.seqno < MODULUS && g.ack < MODULUS
  }

  /** x + n in 32 bits */
  function Plus(x: nat, n: nat): (r: nat)
    ensures r < MODULUS
  {
    (x + n) % MODULUS
  }

  function Wrap(x: int): (r: nat)
    ensures r < MODULUS
  {
    x % MODULUS
  }

  /** A listening socket answers a SYN with a socket of its own for the client. */
  function Passive(g: Segment): Socket {
    Socket(SynRecved, true, false, false, 0, Plus(g.seqno, 1), RX_BUF_SIZE, [], [])
  }

  /** tcp_connect() */
  function Active(): Socket {
    Socket(SynSent, false, false, true, 0, 0, RX_BUF_SIZE, [], [])
  }

  /** The acknowledged part of the send buffer goes. */
  function Acked(s: Socket, ack: nat): Socket {
    var n := Wrap(ack - s.nextSeqno);
    s.(tx := s.tx[Min(n, |s.tx|)..], nextSeqno := Plus(s.nextSeqno, n))
  }

  lemma AckedSome(s: Socket, ack: nat, n: nat)
    requires n == Wrap(ack - s.nextSeqno)
    ensures Acked(s, ack) == s.(tx := s.tx[Min(n, |s.tx|)..]).(nextSeqno := Plus(s.nextSeqno, n))
  {
  }

  lemma AckedNothing(s: Socket, ack: nat)
    requires Wrap(ack - s.nextSeqno) == 0 && s.nextSeqno < MODULUS
    ensures Acked(s, ack) == s
  {
    assert s.tx[0..] == s.tx;
  }

  /** A FIN counts as one octet of sequence space. */
  function Fin(s: Socket): Socket {
    s.(state := CloseWait, pendAck := true, lastAck := Plus(s.lastAck, 1))
  }

  /** The payload of a segment that is next in line: taken whole, or not at all. */
  function Data(s: Socket, payload: Bytes): (Socket, Outcome) {
    if payload == [] then (s, Quiet)
    else if s.winsize < |payload| then (s.(pendAck := true), Dropped)
    else (s.(pendAck := true, rx := s.rx + payload,
             lastAck := Plus(s.lastAck, |payload|), winsize := s.winsize - |payload|), Received)
  }

  /** With nothing left to send, the socket answers a FIN with its own. */
  function Finish(s: Socket): Socket {
    if s.state == CloseWait && s.tx == [] then s.(state := LastAck, pendFin := true) else s
  }

  /** tcp_process() for a socket that is not listening. */
  function Process(s: Socket, g: Segment): (Socket, Outcome) {
    if s.state != SynSent && g.seqno != s.lastAck then (s, Discarded) else
      match s.state
      case SynSent =>
        if !g.isSyn && !g.isAck then (s, Discarded)
          else (s.(nextSeqno := g.ack, lastAck := Plus(g.seqno, 1), state := Established), Quiet)
      case SynRecved =>
        if !g.isAck then (s, Discarded)
          else (s.(nextSeqno := g.ack, lastAck := g.seqno, state := Established), NewClient)
      case Established =>
        var s1 := Acked(s, g.ack);
        var s2 := if g.isFin then Fin(s1) else s1;
        var (s3, outcome) := Data(s2, g.payload);
        (Finish(s3), outcome)
      case CloseWait => (Finish(s), Quiet)
      case LastAck => if !g.isAck then (s, Discarded) else (s.(state := Closed), Quiet)
      case Closed => (s, Quiet)
  }

  /** tcp_read() */
  function Read(s: Socket, len: nat): (Socket, Bytes) {
    var n := Min(len, |s.rx|);
    (s.(rx := s.rx[n..], winsize := s.winsize + n), s.rx[..n])
  }

  // ---- an honest peer -----------------------------------------------------------------

  /**
   The peer sends the octets of one stream, of less than 2^32 - 2 octets. Its SYN has
   sequence number iss, octet k of the stream iss + 1 + k, its FIN the number after
   the last octet. Segments may be repeated, lost, cut differently and reordered, and
   the SYN may carry anything.
   */
  ghost predicate Honest(g: Segment, stream: Bytes, iss: nat) {
    && WellFormed(g)
    && (g.isSyn ==> g.seqno == iss)
    && (!g.isSyn ==> exists k: nat :: SentAt(g, stream, iss, k))
  }

  /** The segment starts at octet k of the stream; past the end it is empty. */
  ghost predicate SentAt(g: Segment, stream: Bytes, iss: nat, k: nat) {
    && g.seqno == Plus(iss, 1 + k) && k <= |stream| + 1
    && (k + |g.payload| <= |stream| ==> g.payload == stream[k..k + |g.payload|])
    && (k + |g.payload| > |stream| ==> g.payload == [])
    && (g.isFin ==> k + |g.payload| == |stream|)
  }

  /** Sends stands for tcp_write() and tcp_transmit(), which leave the receiving side alone. */
  datatype Event =
    | Arrives(segment: Segment)
    | Reads(len: nat)
    | Sends(tx: Bytes, pendAck: bool, pendFin: bool, pendSyn: bool)

  /** A connection with what its reader has got so far and what has been accepted in all. */
  datatype Connection = Connection(socket: Socket, delivered: Bytes, accepted: Bytes, fin: bool)

  function Step(c: Connection, e: Event): Connection {
    match e
    case Arrives(g) =>
      var (s, outcome) := Process(c.socket, g);
      c.(socket := s, accepted := if outcome == Received then c.accepted + g.payload else c.accepted,
         fin := s.state.CloseWait? || s.state.LastAck? || s.state.Closed?)
    case Reads(len) =>
      var (s, bytes) := Read(c.socket, len);
      c.(socket := s, delivered := c.delivered + bytes)
    case Sends(tx, pendAck, pendFin, pendSyn) =>
      c.(socket := c.socket.(tx := tx, pendAck := pendAck, pendFin := pendFin, pendSyn := pendSyn))
  }

  /** The connection of a client whose SYN has sequence number iss. */
  function Opened(iss: nat): Connection {
    Connection(Passive(Segment(iss, 0, true, false, false, [])), [], [], false)
  }

  function Run(c: Connection, events: seq<Event>): Connection
    decreases |events|
  {
    if events == [] then c else Step(Run(c, events[..|events| - 1]), events[|events| - 1])
  }

  /** Whatever has happened, the reader sees a prefix of the stream, and the bookkeeping matches it. */
  ghost predicate InOrder(c: Connection, stream: Bytes, iss: nat) {
    var s := c.socket;
    && c.delivered + s.rx == c.accepted
    && c.accepted <= stream
    && s.lastAck == Plus(iss, 1 + |c.accepted| + if c.fin then 1 else 0)
    && s.winsize + |s.rx| == RX_BUF_SIZE && s.winsize >= 0
    && !s.state.SynSent?
    && (c.fin <==> s.state.CloseWait? || s.state.LastAck? || s.state.Closed?)
    && (s.state.SynRecved? ==> c.accepted == [])
  }

  /** Within a stream shorter than the sequence space a number belongs to one octet only. */
  lemma SameOctet(iss: nat, a: nat, b: nat)
    requires Plus(iss, a) == Plus(iss, b) && a < MODULUS && b < MODULUS
    ensures a == b
  {
    var q, r := (iss + a) / MODULUS, (iss + b) / MODULUS;
    assert iss + a == q * MODULUS + Plus(iss, a) && iss + b == r * MODULUS + Plus(iss, b);
    assert a - b == (q - r) * MODULUS;
  }

  lemma PlusPlus(x: nat, a: nat, b: nat)
    ensures Plus(Plus(x, a), b) == Plus(x, a + b)
  {
  }

  lemma OpenedInOrder(stream: Bytes, iss: nat)
    requires iss < MODULUS
    ensures InOrder(Opened(iss), stream, iss)
  {
  }

  /** A segment with data or a FIN that a connection takes is the next part of the stream. */
  lemma NextInLine(c: Connection, g: Segment, stream: Bytes, iss: nat)
    requires InOrder(c, stream, iss) && Honest(g, stream, iss) && |stream| + 2 < MODULUS
    requires c.socket.state == Established && g.seqno == c.socket.lastAck
    ensures !g.isSyn
    ensures var k := |c.accepted|;
            k + |g.payload| <= |stream| && g.payload == stream[k..k + |g.payload|]
              && (g.isFin ==> k + |g.payload| == |stream|)
  {
    var k := |c.accepted|;
    if g.isSyn {
      assert Plus(iss, 0) == iss % MODULUS;
      SynNotNext(iss, 1 + k);
      assert false;
    }
    var j: nat :| SentAt(g, stream, iss, j);
    SameOctet(iss, 1 + j, 1 + k);
  }

  lemma SynNotNext(iss: nat, a: nat)
    requires iss < MODULUS && 0 < a < MODULUS
    ensures Plus(iss, a) != iss
  {
    assert Plus(iss, 0) == iss;
    if Plus(iss, a) == Plus(iss, 0) {
      SameOctet(iss, a, 0);
      assert false;
    }
  }

  /** One event, whatever it is. */
  lemma StepInOrder(c: Connection, e: Event, stream: Bytes, iss: nat)
    requires InOrder(c, stream, iss) && iss < MODULUS && |stream| + 2 < MODULUS
             && (e.Arrives? ==> Honest(e.segment, stream, iss))
    ensures InOrder(Step(c, e), stream, iss)
  {
    match e
    case Arrives(g) =>
      if c.socket.state == Established && g.seqno == c.socket.lastAck {
        NextInLine(c, g, stream, iss);
        EstablishedInOrder(c, g, stream, iss);
      }
    case Reads(len) =>
      var n := Min(len, |c.socket.rx|);
      assert (c.delivered + c.socket.rx[..n]) + c.socket.rx[n..] == c.delivered + c.socket.rx;
    case Sends(_, _, _, _) =>
  }

  lemma EstablishedInOrder(c: Connection, g: Segment, stream: Bytes, iss: nat)
    requires InOrder(c, stream, iss) && c.socket.state == Established && g.seqno == c.socket.lastAck
    requires var k := |c.accepted|; k + |g.payload| <= |stream| && g.payload == stream[k..k + |g.payload|]
    ensures InOrder(Step(c, Arrives(g)), stream, iss)
  {
    var k, n := |c.accepted|, |g.payload|;
    assert c.accepted + g.payload == stream[..k + n];
    assert (c.delivered + c.socket.rx) + g.payload == c.delivered + (c.socket.rx + g.payload);
    AckAfter(c.socket, g, iss, k);
  }

  /** The acknowledgement number counts what was taken. */
  lemma AckAfter(s: Socket, g: Segment, iss: nat, k: nat)
    requires s.state == Established && g.seqno == s.lastAck == Plus(iss, 1 + k)
    ensures var (s', outcome) := Process(s, g);
            s'.lastAck == Plus(iss, 1 + k + (if outcome == Received then |g.payload| else 0) + if g.isFin then 1 else 0)
  {
    var n := |g.payload|;
    PlusPlus(iss, 1 + k, 1);
    PlusPlus(iss, 1 + k, n);
    PlusPlus(iss, 2 + k, n);
  }

  /** Every segment that arrives is the peer's. */
  ghost predicate HonestPeer(events: seq<Event>, stream: Bytes, iss: nat) {
    forall i :: 0 <= i < |events| && events[i].Arrives? ==> Honest(events[i].segment, stream, iss)
  }

  lemma HonestSlice(events: seq<Event>, i: nat, j: nat, stream: Bytes, iss: nat)
    requires HonestPeer(events, stream, iss) && i <= j <= |events|
    ensures HonestPeer(events[i..j], stream, iss)
  {
  }

  lemma {:induction false} RunInOrder(c: Connection, events: seq<Event>, stream: Bytes, iss: nat)
    requires InOrder(c, stream, iss) && iss < MODULUS && |stream| + 2 < MODULUS
    requires HonestPeer(events, stream, iss)
    ensures InOrder(Run(c, events), stream, iss)
  {
    if events != [] {
      var before := events[..|events| - 1];
      HonestSlice(events, 0, |events| - 1, stream, iss);
      RunInOrder(c, before, stream, iss);
      StepInOrder(Run(c, before), events[|events| - 1], stream, iss);
    }
  }

  /**
   The reader of a passively opened connection: for every run in which the peer is
   honest, the octets read, followed by those still buffered, are a prefix of the
   peer's stream; the acknowledgement number counts the accepted octets and the FIN;
   and window and buffer add up.
   */
  lemma StreamInOrder(events: seq<Event>, stream: Bytes, iss: nat)
    requires iss < MODULUS && |stream| + 2 < MODULUS
    requires HonestPeer(events, stream, iss)
    ensures InOrder(Run(Opened(iss), events), stream, iss)
    ensures var c := Run(Opened(iss), events);
            c.delivered <= stream && c.delivered + c.socket.rx <= stream && |c.socket.rx| <= RX_BUF_SIZE
  {
    OpenedInOrder(stream, iss);
    RunInOrder(Opened(iss), events, stream, iss);
    var c := Run(Opened(iss), events);
    assert c.delivered <= c.accepted;
  }

  /** What has been delivered stays delivered, in order. */
  lemma {:induction false} DeliveredGrows(c: Connection, events: seq<Event>, k: nat)
    requires k <= |events|
    ensures Run(c, events[..k]).delivered <= Run(c, events).delivered
  {
    if k < |events| {
      var before := events[..|events| - 1];
      assert before[..k] == events[..k];
      DeliveredGrows(c, before, k);
    } else {
      assert events[..k] == events;
    }
  }

  /** A FIN that is taken completes the stream exactly when its payload fits the window. */
  lemma FinCompletesIff(c: Connection, g: Segment, stream: Bytes, iss: nat)
    requires InOrder(c, stream, iss) && Honest(g, stream, iss) && iss < MODULUS && |stream| + 2 < MODULUS
    requires c.socket.state == Established && g.isFin && g.seqno == c.socket.lastAck
    ensures Step(c, Arrives(g)).fin
    ensures Step(c, Arrives(g)).accepted == stream <==> |g.payload| <= c.socket.winsize
  {
    NextInLine(c, g, stream, iss);
    var k := |c.accepted|;
    assert c.accepted == stream[..k] && stream[..k] + stream[k..] == stream
      && stream[k..k + |g.payload|] == stream[k..];
  }

  /** Once the FIN has been taken nothing more is accepted, so octets dropped with it never arrive. */
  lemma {:induction false} AfterFin(c: Connection, events: seq<Event>)
    requires c.fin && (c.socket.state.CloseWait? || c.socket.state.LastAck? || c.socket.state.Closed?)
    ensures var d := Run(c, events);
            d.fin && d.accepted == c.accepted
              && (d.socket.state.CloseWait? || d.socket.state.LastAck? || d.socket.state.Closed?)
  {
    if events != [] { AfterFin(c, events[..|events| - 1]); }
  }

  /** A FIN with one octet more than the window: acknowledged, closed, and its payload lost. */
  lemma FinLosesData(iss: nat)
    requires iss < MODULUS
    ensures var stream := seq(RX_BUF_SIZE + 1, i => 0);
            var ack := Segment(Plus(iss, 1), 0, false, true, false, []);
            var fin := Segment(Plus(iss, 1), 0, false, true, true, stream);
            && Honest(ack, stream, iss) && Honest(fin, stream, iss)
            && forall more :: var c := Run(Step(Step(Opened(iss), Arrives(ack)), Arrives(fin)), more);
               c.fin && c.accepted == []
  {
    var stream := seq(RX_BUF_SIZE + 1, i => 0);
    var ack := Segment(Plus(iss, 1), 0, false, true, false, []);
    var fin := Segment(Plus(iss, 1), 0, false, true, true, stream);
    assert SentAt(ack, stream, iss, 0) && SentAt(fin, stream, iss, 0);
    var c := Step(Step(Opened(iss), Arrives(ack)), Arrives(fin));
    forall more ensures Run(c, more).fin && Run(c, more).accepted == [] { AfterFin(c, more); }
  }

  /**
   An active open lets a lone ACK in as well; the numbers are right from then on exactly when the segment was
   the SYN.
   */
  lemma ActiveOpenIff(g: Segment, stream: Bytes, iss: nat)
    requires Honest(g, stream, iss) && iss < MODULUS && |stream| + 4 < MODULUS && (g.isSyn || g.isAck)
    ensures InOrder(Step(Dialled(), Arrives(g)), stream, iss) <==> g.isSyn
  {
    if !g.isSyn {
      var k: nat :| SentAt(g, stream, iss, k);
      PlusPlus(iss, 1 + k, 1);
      if Plus(iss, 2 + k) == Plus(iss, 1) { SameOctet(iss, 2 + k, 1); }
    }
  }

  // ---- actively opened connections ----------------------------------------------------------

  function Dialled(): Connection {
    Connection(Active(), [], [], false)
  }

  /** Nothing has been taken from the peer yet. */
  ghost predicate Unanswered(c: Connection) {
    && c.delivered == [] && c.accepted == [] && !c.fin
    && c.socket.state == SynSent && c.socket.rx == [] && c.socket.winsize == RX_BUF_SIZE
  }

  /** The event is a segment that a socket in SYN_SENT takes. */
  predicate Answers(e: Event) {
    e.Arrives? && (e.segment.isSyn || e.segment.isAck)
  }

  lemma {:induction false} StillUnanswered(c: Connection, events: seq<Event>)
    requires Unanswered(c) && forall i :: 0 <= i < |events| ==> !Answers(events[i])
    ensures Unanswered(Run(c, events))
  {
    if events != [] { StillUnanswered(c, events[..|events| - 1]); }
  }

  lemma {:induction false} RunConcat(c: Connection, a: seq<Event>, b: seq<Event>)
    ensures Run(c, a + b) == Run(Run(c, a), b)
    decreases |b|
  {
    if b == [] {
      assert a + b == a;
    } else {
      assert (a + b)[..|a + b| - 1] == a + b[..|b| - 1];
      RunConcat(c, a, b[..|b| - 1]);
    }
  }

  lemma RunNext(c: Connection, events: seq<Event>, i: nat)
    requires i < |events|
    ensures Run(c, events[..i + 1]) == Step(Run(c, events[..i]), events[i])
  {
    assert events[..i + 1][..i] == events[..i];
  }

  /** The SYN puts the socket in order. */
  lemma AnsweredInOrder(c: Connection, e: Event, stream: Bytes, iss: nat)
    requires Unanswered(c) && Answers(e) && e.segment.isSyn && Honest(e.segment, stream, iss)
    ensures InOrder(Step(c, e), stream, iss)
  {
  }

  /** The i-th event is the first segment that the socket takes, and it is the peer's SYN. */
  ghost predicate FirstIsSyn(events: seq<Event>, i: nat) {
    i < |events| && (forall k :: 0 <= k < i ==> !Answers(events[k])) && Answers(events[i]) && events[i].segment.isSyn
  }

  lemma UpToAnswer(c: Connection, events: seq<Event>, stream: Bytes, iss: nat, i: nat)
    requires Unanswered(c) && FirstIsSyn(events, i) && HonestPeer(events, stream, iss)
    ensures InOrder(Run(c, events[..i + 1]), stream, iss)
  {
    StillUnanswered(c, events[..i]);
    RunNext(c, events, i);
    AnsweredInOrder(Run(c, events[..i]), events[i], stream, iss);
  }

  /** Once in order, always in order. */
  lemma OnFromThere(c: Connection, events: seq<Event>, i: nat, stream: Bytes, iss: nat)
    requires i <= |events| && InOrder(Run(c, events[..i]), stream, iss) && iss < MODULUS && |stream| + 2 < MODULUS
    requires HonestPeer(events, stream, iss)
    ensures InOrder(Run(c, events), stream, iss)
  {
    var first, later := events[..i], events[i..];
    assert events == first + later && later == events[i..|events|];
    HonestSlice(events, i, |events|, stream, iss);
    RunConcat(c, first, later);
    RunInOrder(Run(c, first), later, stream, iss);
  }

  lemma AnsweredStream(c: Connection, events: seq<Event>, stream: Bytes, iss: nat, i: nat)
    requires iss < MODULUS && |stream| + 2 < MODULUS && HonestPeer(events, stream, iss)
    requires Unanswered(c) && FirstIsSyn(events, i)
    ensures InOrder(Run(c, events), stream, iss)
  {
    UpToAnswer(c, events, stream, iss, i);
    OnFromThere(c, events, i + 1, stream, iss);
  }

  /**
   The reader of an actively opened connection: if the first segment that the socket takes, the i-th event,
   is the peer's SYN, the same holds from then on, for every run in which the peer is honest.
   */
  lemma ActiveStreamInOrder(events: seq<Event>, stream: Bytes, iss: nat, i: nat)
    requires iss < MODULUS && |stream| + 2 < MODULUS && HonestPeer(events, stream, iss) && FirstIsSyn(events, i)
    ensures InOrder(Run(Dialled(), events), stream, iss)
  {
    AnsweredStream(Dialled(), events, stream, iss, i);
  }
}
