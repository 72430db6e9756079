/** The encrypted port: length-prefixed frames over a byte stream that arrives in
    arbitrary pieces, each sealed with a nonce of its own. */
module Framing {
  import opened Prelude

  type Byte = b: int | 0 <= b < 256
  type Bytes = seq<Byte>

  // ----- big-endian numbers -----

  function Pow256(k: nat): (r: nat)
    ensures r > 0
  {
    if k == 0 then 1 else 256 * Pow256(k - 1)
  }

  function Pack(k: nat, n: nat): (s: Bytes)
    ensures |s| == k
  {
    if k == 0 then [] else Pack(k - 1, n / 256) + [n % 256]
  }

  function Unpack(s: Bytes): nat {
    if s == [] then 0 else 256 * Unpack(s[..|s| - 1]) + s[|s| - 1]
  }

  lemma {:induction false} UnpackPack(k: nat, n: nat)
    requires n < Pow256(k)
    ensures Unpack(Pack(k, n)) == n
  {
    if k > 0 {
      var s := Pack(k, n);
      assert s[..k - 1] == Pack(k - 1, n / 256);
      UnpackPack(k - 1, n / 256);
    }
  }

  /** The first byte is zero exactly for numbers that fit in one byte less. */
  lemma {:induction false} FirstByte(k: nat, n: nat)
    requires 0 < k && n < Pow256(k)
    ensures Pack(k, n)[0] == 0 <==> n < Pow256(k - 1)
  {
    if k == 1 {
      assert Pack(1, n) == [] + [n % 256];
    } else {
      FirstByte(k - 1, n / 256);
      assert Pack(k, n)[0] == Pack(k - 1, n / 256)[0];
      assert n < Pow256(k - 1) <==> n / 256 < Pow256(k - 2);
    }
  }

  lemma PackInjective(k: nat, m: nat, n: nat)
    requires m < Pow256(k) && n < Pow256(k) && Pack(k, m) == Pack(k, n)
    ensures m == n
  {
    UnpackPack(k, m);
    UnpackPack(k, n);
  }

  // ----- frames -----

  /** The cipher: sealing and opening with a nonce; opening may refuse. */
  datatype Box = Box(encrypt: (Bytes, Bytes) -> Bytes, decrypt: (Bytes, Bytes) -> Option<Bytes>)

  /** Opening undoes sealing with the same nonce. */
  ghost predicate Opens(box: Box) {
    forall nonce, msg :: box.decrypt(nonce, box.encrypt(nonce, msg)) == Some(msg)
  }

  /** Sixteen zero bytes and the counter. */
  function NonceOf(n: nat): Bytes {
    Pack(16, 0) + Pack(8, n)
  }

  lemma NoncesDiffer(m: nat, n: nat)
    requires m < Pow256(8) && n < Pow256(8) && m != n
    ensures NonceOf(m) != NonceOf(n)
  {
    if NonceOf(m) == NonceOf(n) {
      assert Pack(8, m) == NonceOf(m)[16..] && Pack(8, n) == NonceOf(n)[16..];
      PackInjective(8, m, n);
      assert false;
    }
  }

  function Frame(box: Box, n: nat, msg: Bytes): Bytes {
    var data := box.encrypt(NonceOf(n), msg);
    Pack(8, |data|) + data
  }

  datatype Outcome = Message(msg: Bytes) | Eof | BadData(data: Bytes) | Refused | NoMoreNonces

  /** What a receive makes of the bytes still to come: the outcome, the bytes left, and
      whether the nonce was used up. */
  datatype Reading = Reading(outcome: Outcome, left: Bytes, advanced: bool)

  function Min(a: int, b: int): int {
    if a < b then a else b
  }

  function ReadFrame(box: Box, n: nat, bytes: Bytes): Reading {
    if |bytes| < 8 then Reading(Eof, [], false)
    else if bytes[0] != 0 then
      var upTo := Min(8 + 1024, |bytes|);
      Reading(BadData(bytes[..upTo]), bytes[upTo..], false)
    else
      var length := Unpack(bytes[..8]);
      if |bytes| < 8 + length then Reading(Eof, [], false)
      else if n >= Pow256(8) then Reading(NoMoreNonces, bytes[8 + length..], false)
      else
        match box.decrypt(NonceOf(n), bytes[8..8 + length])
        case Some(msg) => Reading(Message(msg), bytes[8 + length..], true)
        case None => Reading(Refused, bytes[8 + length..], true)
  }

  /** A frame is read back whole, and nothing after it is touched, exactly when the
      sealed message is shorter than 2^56 bytes. */
  lemma FrameRoundTrip(box: Box, n: nat, msg: Bytes, tail: Bytes)
    requires Opens(box) && n < Pow256(8) && |box.encrypt(NonceOf(n), msg)| < Pow256(8)
    ensures ReadFrame(box, n, Frame(box, n, msg) + tail) == Reading(Message(msg), tail, true)
       <==> |box.encrypt(NonceOf(n), msg)| < Pow256(7)
  {
    var data := box.encrypt(NonceOf(n), msg);
    var bytes := Frame(box, n, msg) + tail;
    assert bytes[..8] == Pack(8, |data|);
    assert bytes[0] == Pack(8, |data|)[0];
    FirstByte(8, |data|);
    UnpackPack(8, |data|);
    assert bytes[8..8 + |data|] == data;
    assert bytes[8 + |data|..] == tail;
  }

  /** Bytes that begin with a frame around some sealed data. */
  predicate FramedData(bytes: Bytes, data: Bytes, tail: Bytes) {
    |data| < Pow256(7) && bytes == Pack(8, |data|) + data + tail
  }

  /** Whatever the bytes are: a receive gives a message exactly when they begin with a frame
      whose data opens to that message with the receiver's nonce, and refuses a frame exactly
      when its data does not open. Either way it takes that frame and no more. */
  lemma OnlyOpenedMessages(box: Box, n: nat, bytes: Bytes, msg: Bytes)
    ensures ReadFrame(box, n, bytes).outcome == Message(msg)
       <==> n < Pow256(8) && exists data, tail ::
              && FramedData(bytes, data, tail) && box.decrypt(NonceOf(n), data) == Some(msg)
              && ReadFrame(box, n, bytes) == Reading(Message(msg), tail, true)
    ensures ReadFrame(box, n, bytes).outcome == Refused
       <==> n < Pow256(8) && exists data, tail ::
              && FramedData(bytes, data, tail) && box.decrypt(NonceOf(n), data) == None
              && ReadFrame(box, n, bytes) == Reading(Refused, tail, true)
  {
    if |bytes| >= 8 && bytes[0] == 0 {
      var length := Unpack(bytes[..8]);
      PackUnpack(bytes[..8]);
      SmallUnpack(bytes[..8]);
      if |bytes| >= 8 + length {
        var data, tail := bytes[8..8 + length], bytes[8 + length..];
        assert bytes == Pack(8, |data|) + data + tail;
        assert FramedData(bytes, data, tail);
      }
    }
  }

  /** Reading a number of so many bytes and writing it gives the bytes back. */
  lemma {:induction false} PackUnpack(s: Bytes)
    ensures Unpack(s) < Pow256(|s|) && Pack(|s|, Unpack(s)) == s
    decreases |s|
  {
    if s != [] {
      var init, last := s[..|s| - 1], s[|s| - 1];
      PackUnpack(init);
      assert Unpack(s) / 256 == Unpack(init) && Unpack(s) % 256 == last;
      assert s == init + [last];
    }
  }

  lemma SmallUnpack(s: Bytes)
    requires |s| == 8 && s[0] == 0
    ensures Unpack(s) < Pow256(7)
  {
    PackUnpack(s);
    FirstByte(8, Unpack(s));
  }

  // ----- reading from a socket -----

  class Wire {
    /** The bytes written and not yet read. */
    var bytes: Bytes

    constructor ()
      ensures bytes == []
    {
      bytes := [];
    }

    /** One `recv`: some of what is there, at most `n`; nothing only at the end. */
    method Recv(n: nat) returns (data: Bytes)
      requires n > 0
      modifies this
      ensures |data| <= n && old(bytes) == data + bytes
      ensures data == [] <==> old(bytes) == []
    {
      if bytes == [] {
        data := [];
      } else {
        var k :| 1 <= k && k <= n && k <= |bytes|;
        data := bytes[..k];
        bytes := bytes[k..];
      }
    }

    /** Reads until there is enough or nothing more, however the bytes arrive. */
    method ReadMax(n: nat) returns (ret: Bytes)
      modifies this
      ensures ret == old(bytes)[..Min(n, |old(bytes)|)]
      ensures bytes == old(bytes)[Min(n, |old(bytes)|)..]
    {
      ret := [];
      var left := n;
      while left > 0
        invariant 0 <= left && |ret| + left == n
        invariant ret + bytes == old(bytes)
        decreases left
      {
        var data := Recv(Min(left, 4096));
        if data == [] {
          break;
        }
        ret := ret + data;
        left := left - |data|;
      }
    }

    method ReadFixed(n: nat) returns (ret: Option<Bytes>)
      modifies this
      ensures ret == if |old(bytes)| < n then None else Some(old(bytes)[..n])
      ensures bytes == old(bytes)[Min(n, |old(bytes)|)..]
    {
      var data := ReadMax(n);
      ret := if |data| != n then None else Some(data);
    }
  }

  class Port {
    const box: Box
    const outgoing: Wire
    const incoming: Wire
    var sendNonce: nat
    var receiveNonce: nat

    constructor (box: Box, outgoing: Wire, incoming: Wire, isClient: bool)
      ensures this.box == box && this.outgoing == outgoing && this.incoming == incoming
      ensures sendNonce == (if isClient then 0 else 1) && receiveNonce == 1 - sendNonce
    {
      this.box, this.outgoing, this.incoming := box, outgoing, incoming;
      sendNonce := if isClient then 0 else 1;
      receiveNonce := if isClient then 1 else 0;
    }

    /** Sends one message. It fails when a number no longer fits in its eight bytes. */
    method Send(msg: Bytes) returns (ok: bool)
      modifies this, outgoing
      ensures receiveNonce == old(receiveNonce)
      ensures var sealed := box.encrypt(NonceOf(old(sendNonce)), msg);
              if old(sendNonce) >= Pow256(8) then
                !ok && sendNonce == old(sendNonce) && outgoing.bytes == old(outgoing.bytes)
              else if |sealed| >= Pow256(8) then
                !ok && sendNonce == old(sendNonce) + 2 && outgoing.bytes == old(outgoing.bytes)
              else
                ok && sendNonce == old(sendNonce) + 2
                && outgoing.bytes == old(outgoing.bytes) + Frame(box, old(sendNonce), msg)
    {
      if sendNonce >= Pow256(8) {
        return false;
      }
      var nonce := NonceOf(sendNonce);
      sendNonce := sendNonce + 2;
      var data := box.encrypt(nonce, msg);
      if |data| >= Pow256(8) {
        return false;
      }
      outgoing.bytes := outgoing.bytes + (Pack(8, |data|) + data);
      ok := true;
    }

    /** Receives one message, whatever the chunks. */
    method Receive() returns (r: Outcome)
      modifies this, incoming
      ensures sendNonce == old(sendNonce)
      ensures var reading := ReadFrame(box, old(receiveNonce), old(incoming.bytes));
              && r == reading.outcome && incoming.bytes == reading.left
              && receiveNonce == if reading.advanced then old(receiveNonce) + 2 else old(receiveNonce)
    {
      ghost var was := incoming.bytes;
      var lengthData := incoming.ReadFixed(8);
      if lengthData == None {
        return Eof;
      }
      assert was == was[..8] + was[8..];
      if lengthData.value[0] != 0 {
        var more := incoming.ReadMax(1024);
        r := BadData(lengthData.value + more);
        return;
      }
      var length := Unpack(lengthData.value);
      var data := incoming.ReadFixed(length);
      if data == None {
        return Eof;
      }
      assert was[8..][..length] == was[8..8 + length] && was[8..][length..] == was[8 + length..];
      if receiveNonce >= Pow256(8) {
        return NoMoreNonces;
      }
      var nonce := NonceOf(receiveNonce);
      receiveNonce := receiveNonce + 2;
      match box.decrypt(nonce, data.value)
      case Some(msg) => return Message(msg);
      case None => return Refused;
    }
  }

  // ----- whole sessions -----

  /** One direction of a session: the sender's and the receiver's counters, the bytes
      between them, and what has happened so far. */
  datatype Direction = Direction(sendNonce: nat, receiveNonce: nat, wire: Bytes,
                                 sent: seq<Bytes>, got: seq<Bytes>, sealed: seq<nat>, unsealed: seq<nat>,
                                 failed: bool)

  datatype Session = Session(up: Direction, down: Direction)

  datatype Event = Send(msg: Bytes) | Receive

  function Start(base: nat): Direction {
    Direction(base, base, [], [], [], [], [], false)
  }

  /** A send or a receive on one direction. A receive waits while nothing has come. */
  function Step(box: Box, d: Direction, e: Event): Direction {
    match e
    case Send(msg) =>
      if d.sendNonce >= Pow256(8) then d
      else d.(sendNonce := d.sendNonce + 2, wire := d.wire + Frame(box, d.sendNonce, msg),
              sent := d.sent + [msg], sealed := d.sealed + [d.sendNonce])
    case Receive =>
      if d.wire == [] then d
      else
        var r := ReadFrame(box, d.receiveNonce, d.wire);
        if r.outcome.Message? then
          d.(receiveNonce := d.receiveNonce + 2, wire := r.left,
             got := d.got + [r.outcome.msg], unsealed := d.unsealed + [d.receiveNonce])
        else d.(wire := r.left, failed := true)
  }

  /** A run: each event on the client's direction (`true`) or the server's. */
  function Run(box: Box, s: Session, events: seq<(bool, Event)>): Session
    decreases |events|
  {
    if events == [] then s
    else
      var (up, e) := events[0];
      var t := if up then s.(up := Step(box, s.up, e)) else s.(down := Step(box, s.down, e));
      Run(box, t, events[1..])
  }

  /** Messages in flight, the first sealed with nonce `n`. */
  function Frames(box: Box, n: nat, msgs: seq<Bytes>): Bytes
    decreases |msgs|
  {
    if msgs == [] then [] else Frame(box, n, msgs[0]) + Frames(box, n + 2, msgs[1..])
  }

  lemma {:induction false} OneMoreFrame(box: Box, n: nat, msgs: seq<Bytes>, msg: Bytes)
    ensures Frames(box, n, msgs + [msg]) == Frames(box, n, msgs) + Frame(box, n + 2 * |msgs|, msg)
    decreases |msgs|
  {
    if msgs == [] {
      assert (msgs + [msg])[1..] == [];
      assert Frames(box, n + 2, []) == [];
    } else {
      assert (msgs + [msg])[1..] == msgs[1..] + [msg];
      OneMoreFrame(box, n + 2, msgs[1..], msg);
    }
  }

  /** Every other number from `base`. */
  function Odds(base: nat, n: nat): (s: seq<nat>)
    ensures |s| == n && forall i | 0 <= i < n :: s[i] == base + 2 * i
  {
    seq(n, i requires 0 <= i < n => base + 2 * i)
  }

  /** What was received is the beginning of what was sent, and the rest is in flight. */
  ghost predicate InFlight(box: Box, d: Direction) {
    && |d.got| <= |d.sent| && d.got == d.sent[..|d.got|]
    && d.wire == Frames(box, d.receiveNonce, d.sent[|d.got|..])
    && !d.failed
  }

  /** The counters of a direction that started at `base` are those of its messages. */
  predicate Counted(base: nat, d: Direction) {
    && d.sendNonce == base + 2 * |d.sent| && d.receiveNonce == base + 2 * |d.got|
    && d.sealed == Odds(base, |d.sent|) && d.unsealed == Odds(base, |d.got|)
    && d.sendNonce < Pow256(8) + 2
  }

  /** The invariant of a direction that started at `base`. */
  ghost predicate InOrder(box: Box, base: nat, d: Direction) {
    InFlight(box, d) && Counted(base, d)
  }

  /** Every sealed message is shorter than 2^56 bytes. */
  ghost predicate Short(box: Box, e: Event) {
    e.Send? ==> forall n :: |box.encrypt(NonceOf(n), e.msg)| < Pow256(7)
  }

  lemma SendKeepsOrder(box: Box, base: nat, d: Direction, msg: Bytes)
    requires InFlight(box, d) && Counted(base, d) && base < 2 && d.sendNonce < Pow256(8)
    ensures InFlight(box, Step(box, d, Send(msg)))
  {
    SentGrows(d.sent, |d.got|, msg);
    OneMoreFrame(box, d.receiveNonce, d.sent[|d.got|..], msg);
  }

  lemma SentGrows(sent: seq<Bytes>, n: nat, msg: Bytes)
    requires n <= |sent|
    ensures (sent + [msg])[n..] == sent[n..] + [msg] && (sent + [msg])[..n] == sent[..n]
  {
  }

  /** What is in flight is read first message first. */
  lemma FirstInFlight(box: Box, n: nat, msgs: seq<Bytes>)
    requires Opens(box) && n < Pow256(8) && msgs != [] && Short(box, Send(msgs[0]))
    ensures Frames(box, n, msgs) != []
    ensures ReadFrame(box, n, Frames(box, n, msgs)) == Reading(Message(msgs[0]), Frames(box, n + 2, msgs[1..]), true)
  {
    assert Pow256(7) < Pow256(8);
    FrameRoundTrip(box, n, msgs[0], Frames(box, n + 2, msgs[1..]));
    assert |Frame(box, n, msgs[0])| >= 8;
  }

  lemma GotGrows(sent: seq<Bytes>, n: nat)
    requires n < |sent|
    ensures sent[n..][0] == sent[n] && sent[n..][1..] == sent[n + 1..] && sent[..n] + [sent[n]] == sent[..n + 1]
  {
  }

  /** A receive takes the first message in flight off the wire. */
  lemma ReceiveTakesFirst(box: Box, d: Direction)
    requires Opens(box) && InFlight(box, d) && SentShort(box, d) && d.receiveNonce < Pow256(8)
    requires |d.got| < |d.sent|
    ensures Step(box, d, Receive)
         == d.(receiveNonce := d.receiveNonce + 2, wire := Frames(box, d.receiveNonce + 2, d.sent[|d.got| + 1..]),
               got := d.got + [d.sent[|d.got|]], unsealed := d.unsealed + [d.receiveNonce])
  {
    var flying := d.sent[|d.got|..];
    GotGrows(d.sent, |d.got|);
    assert flying[0] in d.sent && Short(box, Send(flying[0]));
    FirstInFlight(box, d.receiveNonce, flying);
  }

  lemma ReceiveKeepsOrder(box: Box, base: nat, d: Direction)
    requires Opens(box) && InFlight(box, d) && SentShort(box, d) && d.receiveNonce < Pow256(8)
    requires |d.got| < |d.sent|
    ensures InFlight(box, Step(box, d, Receive))
    ensures var next := Step(box, d, Receive);
            && next.got == d.got + [d.sent[|d.got|]] && next.receiveNonce == d.receiveNonce + 2
            && next.unsealed == d.unsealed + [d.receiveNonce]
  {
    ReceiveTakesFirst(box, d);
    GotGrows(d.sent, |d.got|);
  }

  /** All messages of a run are short. */
  ghost predicate AllShort(box: Box, events: seq<(bool, Event)>) {
    forall e | e in events :: Short(box, e.1)
  }

  ghost predicate SentShort(box: Box, d: Direction) {
    forall m | m in d.sent :: Short(box, Send(m))
  }

  lemma OddsGrow(base: nat, n: nat)
    ensures Odds(base, n) + [base + 2 * n] == Odds(base, n + 1)
  {
  }

  lemma SendCounts(box: Box, base: nat, d: Direction, msg: Bytes)
    requires Counted(base, d) && SentShort(box, d) && Short(box, Send(msg))
    ensures Counted(base, Step(box, d, Send(msg))) && SentShort(box, Step(box, d, Send(msg)))
  {
    OddsGrow(base, |d.sent|);
  }

  lemma SendStepKeeps(box: Box, base: nat, d: Direction, msg: Bytes)
    requires InOrder(box, base, d) && base < 2 && SentShort(box, d) && Short(box, Send(msg))
    ensures InOrder(box, base, Step(box, d, Send(msg))) && SentShort(box, Step(box, d, Send(msg)))
  {
    SendCounts(box, base, d, msg);
    if d.sendNonce < Pow256(8) {
      SendKeepsOrder(box, base, d, msg);
    }
  }

  lemma ReceiveStepKeeps(box: Box, base: nat, d: Direction)
    requires Opens(box) && InOrder(box, base, d) && base < 2 && SentShort(box, d)
    ensures InOrder(box, base, Step(box, d, Receive)) && SentShort(box, Step(box, d, Receive))
  {
    if |d.got| < |d.sent| {
      ReceiveKeepsOrder(box, base, d);
      OddsGrow(base, |d.got|);
    } else {
      assert d.sent[|d.got|..] == [];
    }
  }

  lemma StepKeepsOrder(box: Box, base: nat, d: Direction, e: Event)
    requires Opens(box) && InOrder(box, base, d) && base < 2 && SentShort(box, d) && Short(box, e)
    ensures InOrder(box, base, Step(box, d, e)) && SentShort(box, Step(box, d, e))
  {
    match e
    case Send(msg) =>
      SendStepKeeps(box, base, d, msg);
    case Receive =>
      ReceiveStepKeeps(box, base, d);
  }

  lemma {:induction false} RunKeepsOrder(box: Box, s: Session, events: seq<(bool, Event)>)
    requires Opens(box) && AllShort(box, events)
    requires InOrder(box, 0, s.up) && InOrder(box, 1, s.down) && SentShort(box, s.up) && SentShort(box, s.down)
    ensures InOrder(box, 0, Run(box, s, events).up) && InOrder(box, 1, Run(box, s, events).down)
    decreases |events|
  {
    if events != [] {
      var (up, e) := events[0];
      assert events[0] in events && forall x | x in events[1..] :: x in events;
      var t := if up then s.(up := Step(box, s.up, e)) else s.(down := Step(box, s.down, e));
      if up {
        StepKeepsOrder(box, 0, s.up, e);
      } else {
        StepKeepsOrder(box, 1, s.down, e);
      }
      RunKeepsOrder(box, t, events[1..]);
    }
  }

  /** Messages come out in the order in which they went in, each opened with the nonce
      that sealed it; no receive failed and no nonce was used twice. */
  predicate Delivered(d: Direction) {
    && d.got <= d.sent && d.unsealed <= d.sealed
    && |d.unsealed| == |d.got| && |d.sealed| == |d.sent|
    && !d.failed
    && (forall i, j | 0 <= i < j < |d.sealed| :: d.sealed[i] != d.sealed[j])
    && (forall i | 0 <= i < |d.sealed| :: d.sealed[i] < Pow256(8))
  }

  lemma OrderMeans(box: Box, base: nat, d: Direction)
    requires InOrder(box, base, d)
    ensures Delivered(d)
    ensures forall i | 0 <= i < |d.sealed| :: d.sealed[i] % 2 == base % 2
  {
  }

  /** In every session the k-th message received is the k-th sent, in both directions, and
      no nonce is used in both. */
  lemma MessagesArriveInOrder(box: Box, events: seq<(bool, Event)>)
    requires Opens(box) && AllShort(box, events)
    ensures var end := Run(box, Session(Start(0), Start(1)), events);
            && Delivered(end.up) && Delivered(end.down)
            && forall i, j | 0 <= i < |end.up.sealed| && 0 <= j < |end.down.sealed| ::
                 end.up.sealed[i] != end.down.sealed[j]
  {
    assert Frames(box, 0, []) == [] && Frames(box, 1, []) == [];
    RunKeepsOrder(box, Session(Start(0), Start(1)), events);
    var end := Run(box, Session(Start(0), Start(1)), events);
    OrderMeans(box, 0, end.up);
    OrderMeans(box, 1, end.down);
  }

  /** In either direction a message in flight is delivered by the next receive. */
  lemma NextReceiveDelivers(box: Box, events: seq<(bool, Event)>, up: bool)
    requires Opens(box) && AllShort(box, events)
    ensures var end := Run(box, Session(Start(0), Start(1)), events);
            var d := if up then end.up else end.down;
            |d.got| < |d.sent| ==> Step(box, d, Receive).got == d.got + [d.sent[|d.got|]]
  {
    assert Frames(box, 0, []) == [] && Frames(box, 1, []) == [];
    RunKeepsOrder(box, Session(Start(0), Start(1)), events);
    RunSendsShort(box, Session(Start(0), Start(1)), events);
    var end := Run(box, Session(Start(0), Start(1)), events);
    var d := if up then end.up else end.down;
    if |d.got| < |d.sent| {
      ReceiveKeepsOrder(box, if up then 0 else 1, d);
    }
  }

  lemma {:induction false} RunSendsShort(box: Box, s: Session, events: seq<(bool, Event)>)
    requires AllShort(box, events) && SentShort(box, s.up) && SentShort(box, s.down)
    ensures SentShort(box, Run(box, s, events).up) && SentShort(box, Run(box, s, events).down)
    decreases |events|
  {
    if events != [] {
      var (up, e) := events[0];
      assert events[0] in events && forall x | x in events[1..] :: x in events;
      var t := if up then s.(up := Step(box, s.up, e)) else s.(down := Step(box, s.down, e));
      assert SentShort(box, t.up) && SentShort(box, t.down);
      RunSendsShort(box, t, events[1..]);
    }
  }
}
