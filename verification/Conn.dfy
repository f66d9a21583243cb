/** The obfuscated packet connection of shared/conn.go and what its reader delivers. */
module Conn {
  import opened Words
  import opened Wrappers
  import opened Crypto

  datatype Addr = Addr(host: uint32, port: uint16)

  /** What the socket yields next: a datagram, or a read error. */
  datatype WireEvent = Datagram(data: Bytes, from: Addr) | Failure

  /** Why a `WriteTo` sent nothing. */
  datatype WriteError = NotFramed(error: CryptoError) | SendFailed

  /** What one `ReadFrom` hands to its caller. */
  datatype Delivery = Got(data: Bytes, from: Addr) | ReadError

  const WIRE_BUFFER := 65535 // the size of the pooled buffers

  function Smaller(a: nat, b: nat): nat {
    if a < b then a else b
  }

  /** What fits of `b` into a buffer of `cap` bytes. */
  function Cut(b: Bytes, cap: nat): Bytes {
    if |b| <= cap then b else b[..cap]
  }

  // ---------- The socket and its wrapper ----------

  /** The underlying socket; reading past the last event is an error (the socket is closed). */
  class PacketConn {
    var incoming: seq<WireEvent>
    var sent: seq<(Bytes, Addr)>

    constructor (events: seq<WireEvent>)
      ensures incoming == events && sent == []
    {
      incoming, sent := events, [];
    }

    /** Receives one datagram into `buf`, cutting it to the size of `buf`. */
    method ReadFrom(buf: array<uint8>) returns (r: Result<(nat, Addr), ()>)
      modifies this`incoming, buf
      ensures old(incoming) == [] ==> r.Err? && incoming == []
      ensures old(incoming) != [] ==> incoming == old(incoming)[1..]
      ensures old(incoming) != [] && old(incoming)[0].Failure? ==> r.Err?
      ensures old(incoming) != [] && old(incoming)[0].Datagram? ==>
                var (data, from) := (old(incoming)[0].data, old(incoming)[0].from);
                && r.Ok? && r.value.1 == from && r.value.0 == Smaller(|data|, buf.Length)
                && buf[..r.value.0] == data[..r.value.0]
    {
      if incoming == [] {
        return Err(());
      }
      var event := incoming[0];
      incoming := incoming[1..];
      match event {
        case Failure =>
          return Err(());
        case Datagram(data, from) =>
          var d := Cut(data, buf.Length);
          CopyAt(buf, 0, d);
          assert buf[0..|d|] == buf[..|d|];
          return Ok((|d|, from));
      }
    }

    /** Sends one datagram, unless the operating system reports an error. */
    method WriteTo(data: Bytes, to: Addr, fails: bool) returns (ok: bool)
      modifies this`sent
      ensures ok == !fails
      ensures sent == if fails then old(sent) else old(sent) + [(data, to)]
    {
      if !fails {
        sent := sent + [(data, to)];
      }
      return !fails;
    }
  }

  class ObfuscatedConn {
    const conn: PacketConn
    const obf: Obfuscator

    constructor (conn: PacketConn, obf: Obfuscator)
      ensures this.conn == conn && this.obf == obf
    {
      this.conn, this.obf := conn, obf;
    }

    /**
     `ReadFrom`: reads until a datagram decodes, then copies its payload to `p`. `tempBuf` is the
     pooled buffer; whatever it held before has no influence.
     */
    method ReadFrom(p: array<uint8>, tempBuf: array<uint8>) returns (r: Result<(nat, Addr), ()>)
      requires Correct(obf.aead)
      requires tempBuf.Length == WIRE_BUFFER && p != tempBuf
      modifies conn`incoming, p, tempBuf
      ensures conn.incoming == NextRead(obf.aead, old(conn.incoming), p.Length).1
      ensures match NextRead(obf.aead, old(conn.incoming), p.Length).0
              case ReadError => r.Err? && p[..] == old(p[..])
              case Got(data, from) =>
                && r == Ok((|data|, from)) && |data| <= p.Length
                && p[..|data|] == data && p[|data|..] == old(p[|data|..])
      ensures var items := Decodable(obf.aead, old(conn.incoming));
              if items == [] || items[0].ReadError? then r.Err? && p[..] == old(p[..])
              else
                && r.Ok? && r.value.1 == items[0].from && r.value.0 == Smaller(|items[0].data|, p.Length)
                && p[..r.value.0] == items[0].data[..r.value.0] && p[r.value.0..] == old(p[r.value.0..])
                && Decodable(obf.aead, conn.incoming) == items[1..]
    {
      hide Decodable, HandsOver, Decode;
      ghost var first, items := NextRead(obf.aead, conn.incoming, p.Length).0, Decodable(obf.aead, conn.incoming);
      NextReadTakesFirst(obf.aead, conn.incoming, p.Length);
      if items != [] {
        FirstBytesOf(first, items[0], p.Length);
      }
      while true
        invariant NextRead(obf.aead, conn.incoming, p.Length) == NextRead(obf.aead, old(conn.incoming), p.Length)
        invariant p[..] == old(p[..])
        decreases |conn.incoming|
      {
        ghost var events := conn.incoming;
        var raw := conn.ReadFrom(tempBuf);
        if raw.Err? {
          return Err(());
        }
        var (rawN, rawAddr) := raw.value;
        assert tempBuf[..rawN] == Cut(events[0].data, WIRE_BUFFER);
        var plain := obf.Deobfuscate(tempBuf, rawN);
        if plain.Err? {
          continue;
        }
        var n := if plain.value <= p.Length then plain.value else p.Length;
        assert tempBuf[30..30 + n] == Cut(tempBuf[30..30 + plain.value], p.Length);
        CopyAt(p, 0, tempBuf[30..30 + n]);
        assert p[0..n] == p[..n];
        return Ok((n, rawAddr));
      }
    }

    /**
     `WriteTo`: frames the plaintext in the pooled buffer `out` and sends the frame. It panics when the
     padding drawn does not fit the buffer any more.
     */
    method WriteTo(p: Bytes, to: Addr, out: array<uint8>, nonce: Option<Bytes>, pad: Bytes, fails: bool)
      returns (r: Result<nat, WriteError>)
      requires Correct(obf.aead)
      requires out.Length == WIRE_BUFFER
      requires nonce.Some? ==> |nonce.value| == NONCE_SIZE
      requires |pad| < 64
      modifies conn`sent, out
      ensures r.Ok? <==> |p| + 46 + |pad| <= WIRE_BUFFER && nonce.Some? && !fails
      ensures r.Ok? ==> r.value == |p| && conn.sent == old(conn.sent) + [(Frame(obf.aead, p, nonce.value, pad), to)]
      ensures r.Err? ==> conn.sent == old(conn.sent)
      ensures r == Err(NotFramed(OutOfRange)) <==> |p| + 46 <= WIRE_BUFFER < |p| + 46 + |pad| && nonce.Some?
    {
      var framed := obf.ObfuscateTo(p, out, nonce, pad);
      if framed.Err? {
        return Err(NotFramed(framed.error));
      }
      if framed.value > out.Length {
        return Err(NotFramed(OutOfRange));
      }
      var ok := conn.WriteTo(out[..framed.value], to, fails);
      if !ok {
        return Err(SendFailed);
      }
      return Ok(|p|);
    }
  }

  /** Exactly payloads of up to 65426 bytes can be sent whatever padding is drawn. */
  lemma AlwaysSendableIff(len: nat)
    ensures (forall pad: nat | pad < 64 :: FrameFits(len, pad, WIRE_BUFFER)) <==> len <= 65426
  {
    if len > 65426 {
      assert !FrameFits(len, 63, WIRE_BUFFER);
    }
  }

  // ---------- What a reader is handed ----------

  /** One `ReadFrom` with room for `cap` bytes: what it returns and what is left on the wire. */
  function NextRead(a: Aead, wire: seq<WireEvent>, cap: nat): (Delivery, seq<WireEvent>) {
    if wire == [] then (ReadError, [])
    else
      match wire[0]
      case Failure => (ReadError, wire[1..])
      case Datagram(data, from) =>
        match Decode(a, Cut(data, WIRE_BUFFER))
        case Err(_) => NextRead(a, wire[1..], cap)
        case Ok(payload) => (Got(Cut(payload, cap), from), wire[1..])
  }

  /** Successive `ReadFrom` calls, one for each capacity in `caps`. */
  function Reads(a: Aead, wire: seq<WireEvent>, caps: seq<nat>): (rs: seq<Delivery>)
    ensures |rs| == |caps|
    decreases |caps|
  {
    if caps == [] then []
    else
      var (r, rest) := NextRead(a, wire, caps[0]);
      [r] + Reads(a, rest, caps[1..])
  }

  /** The simple specification: drop what does not decode, keep the rest in order. */
  function Decodable(a: Aead, wire: seq<WireEvent>): seq<Delivery> {
    if wire == [] then []
    else
      (match wire[0]
       case Failure => [ReadError]
       case Datagram(data, from) =>
         match Decode(a, Cut(data, WIRE_BUFFER))
         case Err(_) => []
         case Ok(payload) => [Got(payload, from)])
      + Decodable(a, wire[1..])
  }

  /** What a read with room for `cap` bytes hands over of an item: its sender, and its first bytes. */
  predicate HandsOver(got: Delivery, item: Delivery, cap: nat) {
    match item
    case ReadError => got == ReadError
    case Got(data, from) =>
      got.Got? && got.from == from && got.data <= data && |got.data| == Smaller(|data|, cap)
  }

  lemma FirstBytesOf(got: Delivery, item: Delivery, cap: nat)
    requires HandsOver(got, item, cap)
    ensures got.Got? <==> item.Got?
    ensures got.Got? ==>
              && got.from == item.from && |got.data| == Smaller(|item.data|, cap)
              && |got.data| <= |item.data| && got.data == item.data[..|got.data|]
  {
  }

  /** One read takes the first item of the specification and leaves the others. */
  lemma {:induction false} NextReadTakesFirst(a: Aead, wire: seq<WireEvent>, cap: nat)
    ensures var items := Decodable(a, wire);
            if items == [] then NextRead(a, wire, cap) == (ReadError, [])
            else && HandsOver(NextRead(a, wire, cap).0, items[0], cap)
                 && Decodable(a, NextRead(a, wire, cap).1) == items[1..]
    decreases |wire|
  {
    if wire != [] {
      NextReadTakesFirst(a, wire[1..], cap);
    }
  }

  /**
   For every wire and every sequence of read buffers, read number `k` hands over the `k`-th item of the
   specification, its first bytes if it does not fit, and an error once the items are used up.
   */
  lemma {:induction false} ReadsFollowDecodable(a: Aead, wire: seq<WireEvent>, caps: seq<nat>, k: nat)
    requires k < |caps|
    ensures var items := Decodable(a, wire);
            if k < |items| then HandsOver(Reads(a, wire, caps)[k], items[k], caps[k])
            else Reads(a, wire, caps)[k] == ReadError
    decreases k
  {
    NextReadTakesFirst(a, wire, caps[0]);
    if k > 0 {
      ReadsFollowDecodable(a, NextRead(a, wire, caps[0]).1, caps[1..], k - 1);
    }
  }

  // ---------- Messages among junk ----------

  /** What can be on the wire: the frame of a message, any other datagram, or a read error. */
  datatype WirePacket =
    | Genuine(message: Bytes, nonce: Bytes, pad: Bytes, from: Addr)
    | Junk(data: Bytes, from: Addr)
    | Broken

  function OnWire(a: Aead, p: WirePacket): WireEvent {
    match p
    case Genuine(message, nonce, pad, from) => Datagram(Frame(a, message, nonce, pad), from)
    case Junk(data, from) => Datagram(data, from)
    case Broken => Failure
  }

  function Wire(a: Aead, packets: seq<WirePacket>): seq<WireEvent> {
    if packets == [] then [] else [OnWire(a, packets[0])] + Wire(a, packets[1..])
  }

  function Messages(packets: seq<WirePacket>): seq<Delivery> {
    if packets == [] then []
    else
      (match packets[0]
       case Genuine(message, _, _, from) => [Got(message, from)]
       case Junk(_, _) => []
       case Broken => [ReadError])
      + Messages(packets[1..])
  }

  /** Genuine packets are what `WriteTo` can send; junk is what is no frame of anything. */
  ghost predicate WellLabelled(a: Aead, p: WirePacket) {
    match p
    case Genuine(message, nonce, pad, _) => |nonce| == NONCE_SIZE && |message| + 46 + |pad| <= WIRE_BUFFER
    case Junk(data, _) => forall m: Bytes :: !IsFrameOf(a, Cut(data, WIRE_BUFFER), m)
    case Broken => true
  }

  lemma PacketItems(a: Aead, p: WirePacket)
    requires Ideal(a) && WellLabelled(a, p) && !p.Broken?
    ensures match Decode(a, Cut(OnWire(a, p).data, WIRE_BUFFER))
            case Ok(payload) => p.Genuine? && payload == p.message
            case Err(_) => p.Junk?
  {
    match p {
      case Genuine(message, nonce, pad, _) =>
        FrameLength(a, message, nonce, pad);
        RoundTrip(a, message, nonce, pad);
      case Junk(data, _) =>
        var c := Cut(data, WIRE_BUFFER);
        if Decode(a, c).Ok? {
          DecodesIffFrame(a, c, Decode(a, c).value);
        }
    }
  }

  /** Junk between the frames neither alters, reorders, drops nor duplicates a message. */
  lemma {:induction false} JunkIsInvisible(a: Aead, packets: seq<WirePacket>)
    requires Ideal(a)
    requires forall k | 0 <= k < |packets| :: WellLabelled(a, packets[k])
    ensures Decodable(a, Wire(a, packets)) == Messages(packets)
    decreases |packets|
  {
    if packets != [] {
      if !packets[0].Broken? {
        PacketItems(a, packets[0]);
      }
      JunkIsInvisible(a, packets[1..]);
    }
  }

  /** The reads of a whole wire, junk included, are the messages in order, whole where they fit. */
  lemma MessagesAreDelivered(a: Aead, packets: seq<WirePacket>, caps: seq<nat>, k: nat)
    requires Ideal(a)
    requires forall j | 0 <= j < |packets| :: WellLabelled(a, packets[j])
    requires k < |caps|
    ensures var handed, messages := Reads(a, Wire(a, packets), caps), Messages(packets);
            && (k >= |messages| ==> handed[k] == ReadError)
            && (k < |messages| && messages[k].ReadError? ==> handed[k] == ReadError)
            && (k < |messages| && messages[k].Got? ==>
                  && handed[k].Got? && handed[k].from == messages[k].from
                  && handed[k].data <= messages[k].data
                  && |handed[k].data| == Smaller(|messages[k].data|, caps[k]))
            && (k < |messages| && messages[k].Got? && |messages[k].data| <= caps[k] ==> handed[k] == messages[k])
  {
    JunkIsInvisible(a, packets);
    ReadsFollowDecodable(a, Wire(a, packets), caps, k);
  }
}
