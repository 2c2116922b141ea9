/** One direction of a transport session under concurrency: any number of receiving threads, each
    taking its quick check, its decryption and its marking as separate atomic steps, over a network
    that drops, duplicates, reorders and injects. */
module Channel {
  import opened Wrappers
  import opened Crypto
  import opened Wire
  import opened ReplayWindow

  datatype Thread =
    | Checked(packet: Packet)
    | Decrypted(packet: Packet, plain: Bytes)

  datatype Delivery = Delivery(counter: nat, payload: Bytes)

  datatype State = State(
    key: Bytes,
    index: u32,
    sent: seq<Bytes>,
    network: set<Packet>,
    window: Window,
    receiveCnt: nat,
    threads: map<nat, Thread>,
    delivered: seq<Delivery>)

  datatype Step =
    | Send(src: Bytes)
    | Inject(packet: Packet)
    | QuickCheck(thread: nat, packet: Packet)
    | Decrypt(thread: nat)
    | MarkReceived(thread: nat)

  function Start(key: Bytes, index: u32): State {
    State(key, index, [], {}, EMPTY, 0, map[], [])
  }

  /** The datagram that carries the sender's packet number c. */
  function Datagram(key: Bytes, index: u32, c: u64, src: Bytes): Packet {
    PacketData(index, c, Seal(key, CounterNonce(c), src, []))
  }

  /** An outsider can send any ciphertext it has seen, and any that the session key did not make. */
  ghost predicate Forgeable(s: State, p: Packet) {
    && p.PacketData?
    && ((exists q <- s.network :: q.PacketData? && q.encryptedPacket == p.encryptedPacket)
        || forall c: u64, plain :: p.encryptedPacket != Seal(s.key, CounterNonce(c), plain, []))
  }

  /** A step that is not enabled changes nothing. The sender stops 1024 packets before its 64-bit
      counter ends; injected counters are unrestricted. */
  ghost function Next(s: State, step: Step): State {
    match step
    case Send(src) =>
      var c := |s.sent|;
      if c + N_BITS >= U64_SIZE then s
      else s.(sent := s.sent + [src], network := s.network + {Datagram(s.key, s.index, c, src)})
    case Inject(p) =>
      if Forgeable(s, p) then s.(network := s.network + {p}) else s
    case QuickCheck(t, p) =>
      if t in s.threads || p !in s.network || !p.PacketData? || p.receiverIdx != s.index
         || WillAccept(s.window, p.counter).Err? then s
      else s.(threads := s.threads[t := Checked(p)])
    case Decrypt(t) =>
      if t !in s.threads || !s.threads[t].Checked? || !s.threads[t].packet.PacketData? then s
      else
        var p := s.threads[t].packet;
        var plain := Open(s.key, CounterNonce(p.counter), p.encryptedPacket, []);
        if plain.None? then s.(threads := s.threads - {t})
        else s.(threads := s.threads[t := Decrypted(p, plain.value)])
    case MarkReceived(t) =>
      if t !in s.threads || !s.threads[t].Decrypted? || !s.threads[t].packet.PacketData? then s
      else
        var p := s.threads[t].packet;
        var (r, w) := Mark(s.window, p.counter);
        if r.Err? then s.(threads := s.threads - {t})
        else s.(threads := s.threads - {t}, window := w, receiveCnt := s.receiveCnt + 1,
                delivered := s.delivered + [Delivery(p.counter, s.threads[t].plain)])
  }

  ghost function Exec(s: State, steps: seq<Step>): State {
    if steps == [] then s else Next(Exec(s, steps[..|steps| - 1]), steps[|steps| - 1])
  }

  /** c is the number of a packet with this payload. */
  predicate WasSent(s: State, c: nat, payload: Bytes) {
    c < |s.sent| && s.sent[c] == payload
  }

  /** Every ciphertext of the session key on the network was sealed by the sender. */
  ghost predicate Authentic(s: State, p: Packet) {
    p.PacketData? && forall c: u64, plain | p.encryptedPacket == Seal(s.key, CounterNonce(c), plain, []) ::
      WasSent(s, c, plain)
  }

  ghost predicate Inv(s: State) {
    && |s.sent| + N_BITS <= U64_SIZE
    && (forall p <- s.network :: Authentic(s, p))
    && (forall t <- s.threads :: ThreadInv(s, s.threads[t]))
    && WellFormed(s.window)
    && s.window.next <= |s.sent|
    && s.receiveCnt == |s.delivered| == |s.window.marked|
    && (forall i | 0 <= i < |s.delivered| :: DeliveryInv(s, s.delivered[i]))
    && (forall i, j | 0 <= i < j < |s.delivered| :: s.delivered[i].counter != s.delivered[j].counter)
  }

  ghost predicate ThreadInv(s: State, t: Thread) {
    t.packet in s.network && t.packet.PacketData? && (t.Decrypted? ==> WasSent(s, t.packet.counter, t.plain))
  }

  ghost predicate DeliveryInv(s: State, d: Delivery) {
    WasSent(s, d.counter, d.payload) && d.counter in s.window.marked
  }

  lemma SendKeepsInv(s: State, src: Bytes)
    requires Inv(s)
    ensures Inv(Next(s, Send(src)))
  {
    hide Seal, CounterNonce;
    var s' := Next(s, Send(src));
    var n := |s.sent|;
    if n + N_BITS < U64_SIZE {
      forall p <- s'.network
        ensures Authentic(s', p)
      {
        if p !in s.network {
          forall c: u64, plain | p.encryptedPacket == Seal(s.key, CounterNonce(c), plain, [])
            ensures WasSent(s', c, plain)
          {
            SealedOnce(s.key, n, src, c, plain);
          }
        } else {
          assert Authentic(s, p);
        }
      }
    }
  }

  lemma SealedOnce(key: Bytes, c: u64, plain: Bytes, d: u64, plain': Bytes)
    requires Seal(key, CounterNonce(c), plain, []) == Seal(key, CounterNonce(d), plain', [])
    ensures c == d && plain == plain'
  {
    OpenIffSealed(key, CounterNonce(c), Seal(key, CounterNonce(c), plain, []), [], plain);
    assert Seal(key, CounterNonce(c), plain, [])[0] == Seal(key, CounterNonce(d), plain', [])[0];
    CounterNonceInjective(c, d);
  }

  lemma DecryptKeepsInv(s: State, t: nat)
    requires Inv(s)
    ensures Inv(Next(s, Decrypt(t)))
  {
    hide Seal, Open, CounterNonce;
    if t in s.threads && s.threads[t].Checked? {
      var p := s.threads[t].packet;
      var o := Open(s.key, CounterNonce(p.counter), p.encryptedPacket, []);
      if o.Some? {
        OpenIffSealed(s.key, CounterNonce(p.counter), p.encryptedPacket, [], o.value);
        assert Authentic(s, p);
      }
    }
  }

  lemma MarkKeepsInv(s: State, t: nat)
    requires Inv(s)
    ensures Inv(Next(s, MarkReceived(t)))
  {
    hide Mark;
    if t in s.threads && s.threads[t].Decrypted? {
      var p := s.threads[t].packet;
      if Mark(s.window, p.counter).0.Ok? {
        MarkGrows(s.window, p.counter);
        MarkMovesTo(s.window, p.counter);
      }
    }
  }

  lemma MarkMovesTo(w: Window, c: u64)
    requires !Wraps(c) && Mark(w, c).0.Ok?
    ensures Mark(w, c).1.next == if c < w.next then w.next else c + 1
  {
  }

  lemma NextKeepsInv(s: State, step: Step)
    requires Inv(s)
    ensures Inv(Next(s, step))
  {
    match step
    case Send(src) => SendKeepsInv(s, src);
    case Inject(p) =>
      hide Seal, CounterNonce;
    case QuickCheck(t, p) =>
    case Decrypt(t) => DecryptKeepsInv(s, t);
    case MarkReceived(t) => MarkKeepsInv(s, t);
  }

  lemma {:induction false} ExecKeepsInv(s: State, steps: seq<Step>)
    requires Inv(s)
    ensures Inv(Exec(s, steps))
  {
    if steps != [] {
      ExecKeepsInv(s, steps[..|steps| - 1]);
      NextKeepsInv(Exec(s, steps[..|steps| - 1]), steps[|steps| - 1]);
    }
  }

  /** In every run, whatever is delivered was sent by the peer under that counter, no counter is
      delivered twice, and the receive counter counts the deliveries. */
  lemma DeliveredOnceAndAuthentic(key: Bytes, index: u32, steps: seq<Step>)
    ensures var s := Exec(Start(key, index), steps);
            && (forall i | 0 <= i < |s.delivered| ::
                  WasSent(s, s.delivered[i].counter, s.delivered[i].payload))
            && (forall i, j | 0 <= i < j < |s.delivered| :: s.delivered[i].counter != s.delivered[j].counter)
            && s.receiveCnt == |s.delivered|
  {
    ExecKeepsInv(Start(key, index), steps);
  }

  /** The quick check loses nothing: a packet it refuses would be refused by every later marking,
      however the run goes on. */
  lemma {:induction false} QuickCheckLosesNothing(s: State, p: Packet, steps: seq<Step>)
    requires Inv(s) && p.PacketData? && p.counter < s.window.next
    requires WillAccept(s.window, p.counter).Err?
    ensures Mark(Exec(s, steps).window, p.counter).0.Err?
  {
    ChecksDecideFreshness(s.window, p.counter);
    StaysStale(s, p.counter, steps);
    ExecKeepsInv(s, steps);
    ChecksDecideFreshness(Exec(s, steps).window, p.counter);
  }

  lemma {:induction false} StaysStale(s: State, c: u64, steps: seq<Step>)
    requires Inv(s) && !Fresh(s.window, c)
    ensures !Fresh(Exec(s, steps).window, c)
  {
    if steps != [] {
      var before := Exec(s, steps[..|steps| - 1]);
      StaysStale(s, c, steps[..|steps| - 1]);
      ExecKeepsInv(s, steps[..|steps| - 1]);
      var step := steps[|steps| - 1];
      if step.MarkReceived? && step.thread in before.threads && before.threads[step.thread].Decrypted? {
        assert ThreadInv(before, before.threads[step.thread]);
        StaleForEver(before.window, c, before.threads[step.thread].packet.counter);
      }
    }
  }
}
