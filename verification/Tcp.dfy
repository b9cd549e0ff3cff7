/** The socket of servers/tcpip/tcp.c over its buffer chains. */
module Tcp {
  import opened Common
  import M = Mbuf
  import opened TcpSpec

  class TcpSocket {
    var state: State
    var pendAck: bool
    var pendFin: bool
    var pendSyn: bool
    var nextSeqno: nat
    var lastAck: nat
    var winsize: int
    var rxBuf: M.Node
    var txBuf: M.Node
    ghost var rxNodes: seq<M.Node>
    ghost var txNodes: seq<M.Node>

    ghost predicate Valid()
      reads this, rxNodes, txNodes
    {
      && M.IsChain(rxBuf, rxNodes) && M.IsChain(txBuf, txNodes) && M.Disjoint(rxNodes, txNodes)
      && nextSeqno < MODULUS && lastAck < MODULUS
    }

    ghost function View(): Socket
      requires Valid()
      reads this, rxNodes, txNodes
    {
      Socket(state, pendAck, pendFin, pendSyn, nextSeqno, lastAck, winsize, M.Text(rxNodes), M.Text(txNodes))
    }

    /** The socket that a listening socket makes for a client's SYN. */
    constructor Passive(seqno: nat)
      ensures Valid() && View() == TcpSpec.Passive(Segment(seqno, 0, true, false, false, [])) && fresh(rxNodes)
              && fresh(txNodes)
    {
      state, pendAck, pendFin, pendSyn := SynRecved, true, false, false;
      nextSeqno, lastAck, winsize := 0, Plus(seqno, 1), RX_BUF_SIZE;
      var rx := new M.Node();
      var tx := new M.Node();
      rxBuf, txBuf, rxNodes, txNodes := rx, tx, [rx], [tx];
      new;
      assert M.Text([rx]) == rx.Text() + M.Text([rx][1..]) && M.Text([tx]) == tx.Text() + M.Text([tx][1..]);
    }

    method SetNextSeqno(n: nat)
      requires Valid() && n < MODULUS
      modifies this`nextSeqno
      ensures Valid() && View() == old(View()).(nextSeqno := n)
    {
      nextSeqno := n;
    }

    method SetPendAck()
      requires Valid()
      modifies this`pendAck
      ensures Valid() && View() == old(View()).(pendAck := true)
    {
      pendAck := true;
    }

    /** n more octets are acknowledged and take up window. */
    method Count(n: nat)
      requires Valid()
      modifies this`lastAck, this`winsize
      ensures Valid()
              && View() == old(View()).(lastAck := Plus(old(View()).lastAck, n), winsize := old(View()).winsize - n)
    {
      lastAck, winsize := Plus(lastAck, n), winsize - n;
    }

    method TakeReceived(len: nat) returns (buf: Bytes)
      requires Valid()
      modifies this`rxBuf, this`rxNodes, rxNodes
      ensures Valid() && View() == old(View()).(rx := old(View()).rx[Min(len, |old(View()).rx|)..])
              && buf == old(View()).rx[..Min(len, |old(View()).rx|)]
    {
      assert txNodes[0] == txBuf;
      rxBuf, buf, rxNodes := M.Read(rxBuf, len, rxNodes);
      M.Untouched(txNodes);
      M.SuffixDisjoint(rxNodes, old(rxNodes), txNodes);
      assert M.IsChain(txBuf, txNodes) && M.Text(txNodes) == old(M.Text(txNodes));
    }

    method GrowWindow(n: nat)
      requires Valid()
      modifies this`winsize
      ensures Valid() && View() == old(View()).(winsize := old(View()).winsize + n)
    {
      winsize := winsize + n;
    }

    /** tcp_read() */
    method Read(len: nat) returns (buf: Bytes)
      requires Valid()
      modifies this, rxNodes
      ensures Valid() && View() == TcpSpec.Read(old(View()), len).0 && buf == TcpSpec.Read(old(View()), len).1
    {
      buf := TakeReceived(len);
      GrowWindow(|buf|);
    }

    /** The acknowledged part of the send buffer goes; the payload that is still to be looked at is not touched. */
    method Acknowledge(ack: nat, ghost nodes: seq<M.Node>)
      requires Valid() && ack < MODULUS && Beside(nodes)
      modifies this`nextSeqno, this`txBuf, this`txNodes, txNodes
      ensures Valid() && View() == Acked(old(View()), ack)
      ensures Beside(nodes) && M.Text(nodes) == old(M.Text(nodes))
    {
      var acked := Wrap(ack - nextSeqno);
      if acked == 0 {
        AckedNothing(View(), ack);
        return;
      }
      AckedSome(View(), ack, acked);
      var next := Plus(nextSeqno, acked);
      DiscardBeside(acked, nodes);
      SetNextSeqno(next);
    }

    /** A chain, or none, that shares no node with the socket. */
    ghost predicate Beside(nodes: seq<M.Node>)
      reads this`rxNodes, this`txNodes, nodes
    {
      && M.Disjoint(rxNodes, nodes) && M.Disjoint(txNodes, nodes)
      && M.AllOk(nodes) && (nodes != [] ==> M.IsChain(nodes[0], nodes))
    }

    method DiscardBeside(n: nat, ghost nodes: seq<M.Node>)
      requires Valid() && Beside(nodes)
      modifies this`txBuf, this`txNodes, txNodes
      ensures Valid() && View() == old(View()).(tx := old(View()).tx[Min(n, |old(View()).tx|)..])
      ensures Beside(nodes) && M.Text(nodes) == old(M.Text(nodes))
    {
      DiscardSent(n);
      M.WithinDisjoint(txNodes, old(txNodes), nodes);
      M.Untouched(nodes);
    }

    method DiscardSent(n: nat)
      requires Valid()
      modifies this`txBuf, this`txNodes, txNodes
      ensures Valid() && View() == old(View()).(tx := old(View()).tx[Min(n, |old(View()).tx|)..])
              && M.Within(txNodes, old(txNodes))
    {
      var done;
      assert rxNodes[0] == rxBuf;
      txBuf, done, txNodes := M.Discard(txBuf, n, txNodes);
      M.Untouched(rxNodes);
      M.SuffixWithin(txNodes, old(txNodes));
      assert M.IsChain(rxBuf, rxNodes) && M.Text(rxNodes) == old(M.Text(rxNodes));
    }

    method AppendReceived(payload: M.Node?, ghost nodes: seq<M.Node>)
      requires Valid() && M.IsChain(payload, nodes) && M.Disjoint(rxNodes, nodes) && M.Disjoint(txNodes, nodes)
      modifies this`rxNodes, rxNodes
      ensures Valid() && View() == old(View()).(rx := old(View()).rx + old(M.Text(nodes)))
              && rxNodes == old(rxNodes) + nodes
    {
      assert txNodes[0] == txBuf;
      M.Append(rxBuf, payload, rxNodes, nodes);
      M.Untouched(txNodes);
      assert M.IsChain(txBuf, txNodes) && M.Text(txNodes) == old(M.Text(txNodes));
      rxNodes := rxNodes + nodes;
    }

    /** The payload of a segment that is next in line. */
    method TakeData(payload: M.Node?, ghost nodes: seq<M.Node>) returns (outcome: Outcome)
      requires Valid() && M.IsChain(payload, nodes) && M.Disjoint(rxNodes, nodes) && M.Disjoint(txNodes, nodes)
      modifies this`pendAck, this`lastAck, this`winsize, this`rxNodes, rxNodes
      ensures Valid() && View() == Data(old(View()), old(M.Text(nodes))).0
              && outcome == Data(old(View()), old(M.Text(nodes))).1
    {
      var n := M.Len(payload, nodes);
      if n == 0 { return Quiet; }
      if winsize < n {
        SetPendAck();
        return Dropped;
      }
      AppendReceived(payload, nodes);
      SetPendAck();
      Count(n);
      return Received;
    }

    method Establish(next: nat, last: nat)
      requires Valid() && next < MODULUS && last < MODULUS
      modifies this`state, this`nextSeqno, this`lastAck
      ensures Valid() && View() == old(View()).(nextSeqno := next, lastAck := last, state := Established)
    {
      state, nextSeqno, lastAck := Established, next, last;
    }

    method TakeFin()
      requires Valid()
      modifies this`state, this`pendAck, this`lastAck
      ensures Valid() && View() == Fin(old(View()))
    {
      pendAck, state, lastAck := true, CloseWait, Plus(lastAck, 1);
    }

    method AnswerFin()
      requires Valid()
      modifies this`state, this`pendFin
      ensures Valid() && View() == Finish(old(View()))
    {
      if state == CloseWait {
        var n := M.Len(txBuf, txNodes);
        if n == 0 { pendFin, state := true, LastAck; }
      }
    }

    method Close()
      requires Valid()
      modifies this`state
      ensures Valid() && View() == old(View()).(state := Closed)
    {
      state := Closed;
    }

    /** The segment, with its payload in a chain of buffers. */
    ghost function Seen(seqno: nat, ack: nat, isSyn: bool, isAck: bool, isFin: bool, nodes: seq<M.Node>): Segment
      requires M.AllOk(nodes)
      reads nodes
    {
      Segment(seqno, ack, isSyn, isAck, isFin, M.Text(nodes))
    }

    /** A segment that is next in line on an established connection. */
    method ProcessEstablished(ack: nat, isFin: bool, payload: M.Node?, ghost nodes: seq<M.Node>)
      returns (outcome: Outcome)
      requires Valid() && ack < MODULUS
      requires M.IsChain(payload, nodes) && M.Disjoint(rxNodes, nodes) && M.Disjoint(txNodes, nodes)
      modifies this, rxNodes, txNodes
      ensures Valid()
      ensures var s1 := Acked(old(View()), ack); var s2 := if isFin then Fin(s1) else s1;
              var (s3, o) := Data(s2, old(M.Text(nodes)));
              View() == Finish(s3) && outcome == o
    {
      Acknowledge(ack, nodes);
      outcome := TakeFinAndData(isFin, payload, nodes);
      AnswerFin();
    }

    method TakeFinAndData(isFin: bool, payload: M.Node?, ghost nodes: seq<M.Node>) returns (outcome: Outcome)
      requires Valid() && M.IsChain(payload, nodes) && M.Disjoint(rxNodes, nodes) && M.Disjoint(txNodes, nodes)
      modifies this`state, this`pendAck, this`lastAck, this`winsize, this`rxNodes, rxNodes
      ensures Valid() && View() == Data(if isFin then Fin(old(View())) else old(View()), old(M.Text(nodes))).0
      ensures outcome == Data(if isFin then Fin(old(View())) else old(View()), old(M.Text(nodes))).1
    {
      if isFin { TakeFin(); }
      outcome := TakeData(payload, nodes);
    }

    /** tcp_process() */
    method Process(seqno: nat, ack: nat, isSyn: bool, isAck: bool, isFin: bool, payload: M.Node?,
            ghost nodes: seq<M.Node>)
      returns (outcome: Outcome)
      requires Valid() && seqno < MODULUS && ack < MODULUS
      requires M.IsChain(payload, nodes) && M.Disjoint(rxNodes, nodes) && M.Disjoint(txNodes, nodes)
      modifies this, rxNodes, txNodes
      ensures Valid()
      ensures View() == TcpSpec.Process(old(View()), old(Seen(seqno, ack, isSyn, isAck, isFin, nodes))).0
      ensures outcome == TcpSpec.Process(old(View()), old(Seen(seqno, ack, isSyn, isAck, isFin, nodes))).1
    {
      if state != SynSent && seqno != lastAck { return Discarded; }
      outcome := Quiet;
      match state
      case SynSent =>
        if !isSyn && !isAck { return Discarded; }
        Establish(ack, Plus(seqno, 1));
      case SynRecved =>
        if !isAck { return Discarded; }
        Establish(ack, seqno);
        outcome := NewClient;
      case Established =>
        outcome := ProcessEstablished(ack, isFin, payload, nodes);
      case CloseWait =>
        AnswerFin();
      case LastAck =>
        if !isAck { return Discarded; }
        Close();
      case Closed =>
    }
  }
}
