/** A message buffer with blocked senders, in order of arrival or of priority, and receivers
    (kernel/tkernel/messagebuf.c). */
module MessageBuffers {
  import opened Options
  import opened MessageRing
  import opened WaitLine

  /** A task waiting to send, its priority, and its message. */
  type Sender = Waiter<Message>

  datatype Ercd = E_OK | E_PAR | E_TMOUT

  /** A message handed to a task waiting to receive. */
  datatype Delivery = Delivery(task: nat, msg: Message)

  function Messages(q: seq<Sender>): (ms: seq<Message>)
    ensures |ms| == |q|
  {
    if q == [] then [] else [q[0].want] + Messages(q[1..])
  }

  function Tasks(q: seq<Sender>): (ts: seq<nat>)
    ensures |ts| == |q|
  {
    if q == [] then [] else [q[0].task] + Tasks(q[1..])
  }

  lemma {:induction false} QueueWithout(q: seq<Sender>, i: nat)
    requires i < |q|
    ensures Messages(q[..i] + q[i + 1..]) == Messages(q)[..i] + Messages(q)[i + 1..]
    ensures Tasks(q[..i] + q[i + 1..]) == Tasks(q)[..i] + Tasks(q)[i + 1..]
  {
    if i == 0 {
      assert q[..0] + q[1..] == q[1..];
    } else {
      var r := q[..i] + q[i + 1..];
      assert r[0] == q[0] && r[1..] == q[1..][..i - 1] + q[1..][i..];
      QueueWithout(q[1..], i - 1);
    }
  }

  ghost predicate SendersOk(q: seq<Sender>, maxmsz: nat, tpri: bool) {
    (forall i :: 0 <= i < |q| ==> 0 < |q[i].want| <= maxmsz && |q[i].want| <= MAX_INT) && (tpri ==> ByPriority(q))
  }

  /** Where a sender of this priority queues up. */
  function Turn(q: seq<Sender>, pri: int, tpri: bool): (k: nat)
    ensures k <= |q|
  {
    if tpri then Place(q, pri) else |q|
  }

  /** The queue with a message put before its k-th. */
  function Spliced(ms: seq<Message>, k: nat, msg: Message): (r: seq<Message>)
    requires k <= |ms|
    ensures |r| == |ms| + 1 && forall j :: 0 <= j < |r| ==> r[j] == if j < k then ms[j] else if j == k then msg else ms[j - 1]
  {
    ms[..k] + [msg] + ms[k..]
  }

  lemma {:induction false} MessagesAt(q: seq<Sender>, i: nat)
    requires i < |q|
    ensures Messages(q)[i] == q[i].want
  {
    if i > 0 { MessagesAt(q[1..], i - 1); }
  }

  /** A message that joins the line of senders is the k-th of theirs. */
  lemma QueuedMessages(ring: seq<Message>, q: seq<Sender>, w: Sender, tpri: bool)
    ensures var k := Turn(q, w.pri, tpri);
      ring + Messages(Queued(q, w, tpri)) == Spliced(ring + Messages(q), |ring| + k, w.want)
  {
    var k, r := Turn(q, w.pri, tpri), Queued(q, w, tpri);
    var all := Spliced(ring + Messages(q), |ring| + k, w.want);
    forall j | 0 <= j < |all| ensures (ring + Messages(r))[j] == all[j] {
      if j >= |ring| {
        MessagesAt(r, j - |ring|);
        if j < |ring| + k { MessagesAt(q, j - |ring|); } else if j > |ring| + k { MessagesAt(q, j - |ring| - 1); }
      }
    }
    assert ring + Messages(r) == all;
  }

  lemma QueuedOk(q: seq<Sender>, w: Sender, maxmsz: nat, tpri: bool)
    requires SendersOk(q, maxmsz, tpri) && 0 < |w.want| <= maxmsz && |w.want| <= MAX_INT
    ensures SendersOk(Queued(q, w, tpri), maxmsz, tpri)
    ensures Queued(q, w, tpri)[0] == if Top(q, w.pri, tpri) then w else q[0]
  {
    if tpri { QueuedByPriority(q, w); }
  }

  lemma WithoutOk(q: seq<Sender>, i: nat, maxmsz: nat, tpri: bool)
    requires i < |q| && SendersOk(q, maxmsz, tpri)
    ensures SendersOk(Without(q, i), maxmsz, tpri)
  {
    if tpri { WithoutByPriority(q, i); }
  }

  class MessageBuffer {
    const bufsz: nat
    const maxmsz: nat
    const tpri: bool
    const buffer: array<Byte>
    var frbufsz: int
    var head: nat
    var tail: nat
    var sendq: seq<Sender>
    var recvq: seq<nat>
    ghost var ring: seq<Message>

    /** The ring of bytes holds the messages of 'ring', and the counters agree with it. */
    ghost predicate RingOk()
      reads this, buffer
    {
      buffer.Length == bufsz && Holds(buffer[..], head, tail, frbufsz, ring)
    }

    ghost predicate Valid()
      reads this, buffer
    {
      && RingOk() && SendersOk(sendq, maxmsz, tpri)
      && (recvq != [] ==> ring == [] && sendq == [])
      && (sendq != [] ==> frbufsz < HEADERSZ + |sendq[0].want|)
    }

    /** The one queue the buffer stands for: stored messages, then those of blocked senders. */
    ghost function Logical(): seq<Message>
      reads this
    {
      ring + Messages(sendq)
    }

    constructor (size: nat, max: nat, byPriority: bool)
      requires 0 < max <= MAX_INT
      ensures Valid() && Logical() == [] && recvq == [] && sendq == [] && bufsz == Round(size) && maxmsz == max && tpri == byPriority && fresh(buffer)
    {
      bufsz, maxmsz, tpri := Round(size), max, byPriority;
      buffer := new Byte[Round(size)](_ => 0);
      frbufsz, head, tail := Round(size), 0, 0;
      sendq, recvq, ring := [], [], [];
    }

    /** memcpy into the buffer at a place where the bytes do not reach the end. */
    method CopyIn(at: nat, bytes: seq<Byte>)
      requires at + |bytes| <= buffer.Length
      modifies buffer
      ensures buffer[..] == old(buffer[..at]) + bytes + old(buffer[at + |bytes|..])
    {
      var i := 0;
      while i < |bytes|
        invariant 0 <= i <= |bytes|
        invariant buffer[..] == old(buffer[..at]) + bytes[..i] + old(buffer[at + i..])
      {
        buffer[at + i] := bytes[i];
        i := i + 1;
      }
    }

    /** The split copy: up to the end of the buffer, and the rest at its beginning. */
    method CopyAround(at: nat, bytes: seq<Byte>)
      requires at < buffer.Length && buffer.Length - at < |bytes| <= buffer.Length
      modifies buffer
      ensures buffer[..] == Written(old(buffer[..]), at, bytes)
    {
      var rem := buffer.Length - at;
      ghost var b := buffer[..];
      CopyIn(at, bytes[..rem]);
      ghost var b1 := buffer[..];
      assert b1 == b[..at] + bytes[..rem];
      CopyIn(0, bytes[rem..]);
      WrittenAround(b, at, bytes, b1);
    }

    /** Copy bytes to ring position 'at', split where the buffer ends (the body of knl_msg_to_mbf);
        'next' is where the ring continues after the rounded-up bytes. */
    method CopyWrapped(at: nat, bytes: seq<Byte>) returns (next: nat)
      requires Aligned(buffer.Length) && Aligned(at) && at < buffer.Length && Round(|bytes|) <= buffer.Length
      modifies buffer
      ensures buffer[..] == Written(old(buffer[..]), at, bytes)
      ensures next == Wrap(buffer.Length, at + Round(|bytes|)) && Aligned(next) && next < buffer.Length
    {
      var rem := buffer.Length - at;
      ghost var b := buffer[..];
      RingStep(buffer.Length, at, |bytes|);
      if rem < |bytes| {
        CopyAround(at, bytes);
        next := Round(|bytes| - rem);
      } else {
        CopyIn(at, bytes);
        WrittenInside(b, at, bytes);
        next := at + Round(|bytes|);
      }
      if next >= buffer.Length { next := 0; }
    }

    /** knl_msg_to_mbf: append a message to the ring. */
    method MsgToMbf(msg: Message)
      requires RingOk() && 0 < |msg| <= MAX_INT && HEADERSZ + |msg| <= frbufsz
      modifies this`frbufsz, this`tail, this`ring, buffer
      ensures RingOk() && ring == old(ring) + [msg] && frbufsz == old(frbufsz) - Extent(msg)
    {
      FitsRounded(buffer[..], head, tail, frbufsz, ring, msg);
      frbufsz := frbufsz - Extent(msg);
      var h := MakeHeader(|msg|);
      RoundFour();
      var t := CopyWrapped(tail, h);
      ghost var b1 := buffer[..];
      tail := CopyWrapped(t, msg);
      AppendHolds(old(buffer[..]), head, old(tail), old(frbufsz), ring, msg, h, b1, t, buffer[..], tail);
      ring := ring + [msg];
    }

    /** knl_mbf_to_msg: take the first message out of the ring. */
    method MbfToMsg() returns (msg: Message)
      requires RingOk() && ring != []
      modifies this`frbufsz, this`head, this`ring
      ensures RingOk() && msg == old(ring)[0] && ring == old(ring)[1..]
    {
      var size, h := FirstSize();
      FirstMessage(buffer[..], head, tail, frbufsz, ring);
      msg, h := CopyOut(h, size);
      MoveHead(size, h);
    }

    /** The head moves behind the first message, whose bytes are free again. */
    method MoveHead(size: nat, h: nat)
      requires RingOk() && ring != [] && size == |ring[0]| && h == Wrap(buffer.Length, head + Extent(ring[0]))
      modifies this`frbufsz, this`head, this`ring
      ensures RingOk() && ring == old(ring)[1..]
    {
      DropHolds(buffer[..], head, tail, frbufsz, ring, h);
      frbufsz := frbufsz + HEADERSZ + Round(size);
      head := h;
      ring := ring[1..];
    }

    /** The header of the first message, and the place behind it. */
    method FirstSize() returns (size: nat, h: nat)
      requires RingOk() && ring != []
      ensures size == |ring[0]| && h == Wrap(buffer.Length, head + HEADERSZ)
    {
      FirstMessage(buffer[..], head, tail, frbufsz, ring);
      assert buffer[..][head..head + HEADERSZ] == buffer[head..head + HEADERSZ];
      size := ReadHeader(buffer[head..head + HEADERSZ]);
      h := head + HEADERSZ;
      if h >= bufsz { h := 0; }
    }

    /** The copies of knl_mbf_to_msg, split where the buffer ends, and the place after them. */
    method CopyOut(h: nat, size: nat) returns (msg: seq<Byte>, next: nat)
      requires Aligned(buffer.Length) && Aligned(h) && h < buffer.Length && Round(size) <= buffer.Length
      ensures msg == FirstBytes(buffer[..], h, size) && next == Wrap(buffer.Length, h + Round(size)) && next < buffer.Length
    {
      var rem := buffer.Length - h;
      RingStep(buffer.Length, h, size);
      if rem < size {
        msg := buffer[h..] + buffer[..size - rem];
        next := Round(size - rem);
      } else {
        msg := buffer[h..h + size];
        next := h + Round(size);
      }
      if next >= buffer.Length { next := 0; }
      assert buffer[..][h..] == buffer[h..];
    }

    /** knl_mbf_wakeup: store blocked messages while the first one fits; who was released. */
    method Wakeup() returns (released: seq<nat>)
      requires RingOk() && SendersOk(sendq, maxmsz, tpri)
      modifies this`frbufsz, this`tail, this`ring, this`sendq, buffer
      ensures RingOk() && SendersOk(sendq, maxmsz, tpri)
      ensures Logical() == old(Logical())
      ensures sendq != [] ==> frbufsz < HEADERSZ + |sendq[0].want|
      ensures released + Tasks(sendq) == Tasks(old(sendq))
      ensures old(sendq) == [] ==> ring == old(ring) && sendq == []
    {
      released := [];
      while sendq != [] && HEADERSZ + |sendq[0].want| <= frbufsz
        invariant RingOk() && SendersOk(sendq, maxmsz, tpri)
        invariant Logical() == old(Logical())
        invariant released + Tasks(sendq) == Tasks(old(sendq))
        invariant old(sendq) == [] ==> ring == old(ring) && sendq == []
        decreases |sendq|
      {
        ghost var r, q, rel := ring, sendq, released;
        MsgToMbf(sendq[0].want);
        released := released + [sendq[0].task];
        sendq := sendq[1..];
        assert r + ([q[0].want] + Messages(sendq)) == ring + Messages(sendq);
        assert rel + ([q[0].task] + Tasks(sendq)) == released + Tasks(sendq);
      }
    }

    /** tk_snd_mbf. independent: called from a handler; poll: TMO_POL. */
    method Send(task: nat, pri: int, msg: Message, independent: bool, poll: bool) returns (r: Ercd, delivery: Option<Delivery>)
      requires Valid()
      modifies this, buffer
      ensures Valid()
      ensures r == E_PAR <==> |msg| == 0 || |msg| > maxmsz || maxmsz > MAX_INT
      ensures r == E_PAR ==> Logical() == old(Logical()) && recvq == old(recvq) && delivery.None?
      // a waiting receiver gets the message
      ensures r != E_PAR && old(recvq) != [] ==>
        r == E_OK && delivery == Some(Delivery(old(recvq)[0], msg)) && recvq == old(recvq)[1..] && Logical() == []
      // otherwise it is stored behind the stored ones, or its sender blocks in its turn, or the poll fails
      ensures r != E_PAR && old(recvq) == [] ==>
        && delivery.None? && recvq == []
        && (r == E_OK <==> (independent || Top(old(sendq), pri, tpri)) && HEADERSZ + |msg| <= old(frbufsz))
        && sendq == if r == E_TMOUT && !poll then Queued(old(sendq), Waiter(task, pri, msg), tpri) else old(sendq)
      ensures r != E_PAR && old(recvq) == [] ==>
        var k := if r == E_OK then |old(ring)| else |old(ring)| + Turn(old(sendq), pri, tpri);
        Logical() == if r == E_TMOUT && poll then old(Logical()) else Spliced(old(Logical()), k, msg)
    {
      delivery := None;
      if |msg| == 0 || |msg| > maxmsz || maxmsz > MAX_INT { return E_PAR, None; }
      if recvq != [] {
        var d := Deliver(msg);
        return E_OK, Some(d);
      }
      r := StoreOrWait(task, pri, msg, independent, poll);
    }

    /** Nobody waits to receive: the message is stored, or its sender blocks, or the poll fails. */
    method StoreOrWait(task: nat, pri: int, msg: Message, independent: bool, poll: bool) returns (r: Ercd)
      requires Valid() && recvq == [] && 0 < |msg| <= maxmsz && |msg| <= MAX_INT
      modifies this`frbufsz, this`tail, this`ring, this`sendq, buffer
      ensures Valid()
      ensures r == if (independent || Top(old(sendq), pri, tpri)) && HEADERSZ + |msg| <= old(frbufsz) then E_OK else E_TMOUT
      ensures sendq == if r == E_TMOUT && !poll then Queued(old(sendq), Waiter(task, pri, msg), tpri) else old(sendq)
      ensures r == E_OK ==> Logical() == Spliced(old(Logical()), |old(ring)|, msg)
      ensures r == E_TMOUT ==>
        Logical() == if poll then old(Logical()) else Spliced(old(Logical()), |old(ring)| + Turn(old(sendq), pri, tpri), msg)
    {
      if (independent || Top(sendq, pri, tpri)) && HEADERSZ + |msg| <= frbufsz {
        Store(msg);
        return E_OK;
      }
      r := E_TMOUT;
      if !poll { Block(Waiter(task, pri, msg)); }
    }

    /** The first waiting receiver gets the message. */
    method Deliver(msg: Message) returns (d: Delivery)
      requires Valid() && recvq != []
      modifies this`recvq
      ensures Valid() && d == Delivery(old(recvq)[0], msg) && recvq == old(recvq)[1..] && Logical() == []
    {
      d := Delivery(recvq[0], msg);
      recvq := recvq[1..];
      assert Logical() == [];
    }

    /** The message goes into the ring, in front of those of blocked senders. */
    method Store(msg: Message)
      requires Valid() && recvq == [] && 0 < |msg| <= MAX_INT && HEADERSZ + |msg| <= frbufsz
      modifies this`frbufsz, this`tail, this`ring, buffer
      ensures Valid() && Logical() == Spliced(old(Logical()), |old(ring)|, msg)
    {
      ghost var r := ring;
      MsgToMbf(msg);
      assert Spliced(r + Messages(sendq), |r|, msg) == r + [msg] + Messages(sendq);
    }

    /** knl_gcb_make_wait for a sender that does not get its message in. */
    method Block(w: Sender)
      requires Valid() && recvq == [] && 0 < |w.want| <= maxmsz && |w.want| <= MAX_INT
      requires !(Top(sendq, w.pri, tpri) && HEADERSZ + |w.want| <= frbufsz)
      modifies this`sendq
      ensures Valid() && sendq == Queued(old(sendq), w, tpri)
      ensures var k := |ring| + Turn(old(sendq), w.pri, tpri); Logical() == Spliced(old(Logical()), k, w.want)
    {
      QueuedMessages(ring, sendq, w, tpri);
      QueuedOk(sendq, w, maxmsz, tpri);
      sendq := Insert(sendq, w, tpri);
    }

    /** tk_rcv_mbf: the message received, if any, and the senders released. */
    method Receive(task: nat, poll: bool) returns (msg: Option<Message>, released: seq<nat>)
      requires Valid()
      modifies this, buffer
      ensures Valid()
      ensures old(Logical()) != [] ==>
        msg == Some(old(Logical())[0]) && Logical() == old(Logical())[1..] && recvq == old(recvq) && released + Tasks(sendq) == Tasks(old(sendq))
      ensures old(Logical()) == [] ==>
        msg.None? && released == [] && Logical() == [] && recvq == if poll then old(recvq) else old(recvq) + [task]
    {
      RingEmpty();
      if frbufsz != bufsz {
        var m, rel := ReceiveStored();
        return Some(m), rel;
      }
      if sendq != [] {
        var m, rel := ReceiveDirect();
        return Some(m), rel;
      }
      msg, released := None, [];
      if !poll { recvq := recvq + [task]; }
    }

    /** The first message comes out of the ring, and blocked senders move up. */
    method ReceiveStored() returns (m: Message, released: seq<nat>)
      requires Valid() && ring != []
      modifies this, buffer
      ensures Valid() && recvq == old(recvq) && m == old(Logical())[0] && Logical() == old(Logical())[1..]
      ensures released + Tasks(sendq) == Tasks(old(sendq))
    {
      ghost var all, q := Logical(), sendq;
      m := MbfToMsg();
      assert ring + Messages(q) == all[1..];
      released := Wakeup();
    }

    /** The ring is empty: the first blocked sender's message is taken directly. */
    method ReceiveDirect() returns (m: Message, released: seq<nat>)
      requires Valid() && ring == [] && sendq != []
      modifies this, buffer
      ensures Valid() && recvq == old(recvq) && m == old(Logical())[0] && Logical() == old(Logical())[1..]
      ensures released + Tasks(sendq) == Tasks(old(sendq))
    {
      ghost var all, q := Logical(), sendq;
      m := sendq[0].want;
      var first := sendq[0].task;
      sendq := sendq[1..];
      assert ring + Messages(sendq) == all[1..];
      var rel := Wakeup();
      released := [first] + rel;
      assert released + Tasks(sendq) == [first] + (rel + Tasks(sendq));
    }

    /** knl_mbf_empty says exactly whether a message is stored. */
    lemma RingEmpty()
      requires RingOk()
      ensures frbufsz == bufsz <==> ring == []
    {
    }

    /** The wait of the i-th blocked sender ends without success (timeout, tk_rel_wai, termination). */
    method ReleaseSender(i: nat) returns (released: seq<nat>)
      requires Valid() && i < |sendq|
      modifies this, buffer
      ensures Valid() && recvq == old(recvq)
      ensures var k := |old(ring)| + i; Logical() == old(Logical())[..k] + old(Logical())[k + 1..]
      ensures released + Tasks(sendq) == Tasks(old(sendq))[..i] + Tasks(old(sendq))[i + 1..]
    {
      ghost var all, k, q := Logical(), |ring| + i, sendq;
      WithoutOk(q, i, maxmsz, tpri);
      sendq := sendq[..i] + sendq[i + 1..];
      QueueWithout(q, i);
      assert ring + Messages(sendq) == all[..k] + all[k + 1..];
      released := Wakeup();
    }

    /** knl_mbf_chg_pri: the i-th sender moves to its new turn, and the line moves up while it can. */
    method ChgPri(i: nat, pri: int) returns (released: seq<nat>)
      requires Valid() && tpri && i < |sendq|
      modifies this, buffer
      ensures Valid() && recvq == old(recvq)
      ensures var q := Queued(Without(old(sendq), i), old(sendq)[i].(pri := pri), true);
        Logical() == old(ring) + Messages(q) && released + Tasks(sendq) == Tasks(q)
    {
      var w := sendq[i].(pri := pri);
      WithoutOk(sendq, i, maxmsz, tpri);
      QueuedOk(Without(sendq, i), w, maxmsz, tpri);
      sendq := Insert(sendq[..i] + sendq[i + 1..], w, true);
      released := Wakeup();
    }
  }
}
