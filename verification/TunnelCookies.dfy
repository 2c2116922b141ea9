/** The cookie mechanism over whole runs of a tunnel and of the limiter that guards its peer. */
module TunnelCookies {
  import opened Wrappers
  import opened Crypto
  import opened Wire
  import opened Noise
  import S = Session
  import H = HandshakeSpec
  import HP = HandshakeProofs
  import R = RateLimiterSpec
  import C = CookieProofs
  import opened TunnelSpec
  import I = TunnelInvariants
  import TR = TunnelRuns

  /** A handshake message, which carries macs, goes out on the network. */
  predicate SendsHandshake(r: TunnResult) {
    r.WriteToNetwork? && ParseIncomingPacket(r.wire).Ok? && HasMacs(ParseIncomingPacket(r.wire).value)
  }

  /** The datagram is the last handshake message formatted, under the cookie stored now. */
  predicate IsLast(h: H.State, wire: Bytes) {
    && ParseIncomingPacket(wire).Ok?
    && var p := ParseIncomingPacket(wire).value;
    HasMacs(p) && WellSized(p) && H.AppendMacs(h, p.senderIdx, Encode(p)) == (h, wire)
  }

  // One step

  /** Stored cookie and peer stay; what answers will be checked against moves with each handshake
      message. */
  ghost predicate Carries(h: H.State, h': H.State, r: TunnResult) {
    && h'.params.peerStaticPublic == h.params.peerStaticPublic
    && h'.cookies.writeCookie == h.cookies.writeCookie
    && (if SendsHandshake(r) then IsLast(h', r.wire) else h'.cookies == h.cookies)
  }

  /** The time of the last cookie is only lost when a connection expires or starts anew after that. */
  predicate KeepsTime(t: Tunnel, u: Tunnel) {
    || t.handshake.state.Expired? || u.handshake.state.Expired?
    || u.timers.values.cookieReceived == t.timers.values.cookieReceived
  }

  lemma AppendedIsLast(s: H.State, p: Packet)
    requires WellSized(p) && HasMacs(p)
    ensures var (s', wire) := H.AppendMacs(s, p.senderIdx, Encode(p));
            IsLast(s', wire) && SendsHandshake(WriteToNetwork(wire))
  {
    HP.MessageParses(s, p.senderIdx, p);
    hide ParseIncomingPacket, Encode, Mac16;
  }

  lemma NothingSends(r: TunnResult)
    requires !r.WriteToNetwork?
    ensures !SendsHandshake(r)
  {
  }

  lemma DataSendsNoHandshake(s: S.Session, src: Bytes)
    ensures !SendsHandshake(WriteToNetwork(S.FormatPacketData(s, src).1))
  {
    hide Seal, CounterNonce, ParseIncomingPacket, Encode;
    var p := PacketData(s.peerIndex, s.sendCounter, Seal(s.sendingKey, CounterNonce(s.sendCounter), src, []));
    assert Encode(p) + [] == Encode(p);
    ParseEncoded(p, []);
  }

  lemma InitiationCarries(t: Tunnel, force: bool, i: Input)
    ensures var (u, r) := FormatInitiation(t, force, i);
            Carries(t.handshake, u.handshake, r) && KeepsTime(t, u)
  {
    hide SendsHandshake, IsLast, H.AppendMacs, H.InitiationFields, Encode;
    var (u, r) := FormatInitiation(t, force, i);
    if r.WriteToNetwork? {
      var index := H.IncIndex(t.handshake.nextIndex);
      HP.InitiationSizes(t.handshake.params, index, i.ephemeral, H.TimeOf(t.handshake.stamper, i.sent));
      var (p, tr) := H.InitiationFields(t.handshake.params, index, i.ephemeral, H.TimeOf(t.handshake.stamper, i.sent));
      var s := t.handshake.(nextIndex := index, previous := t.handshake.state,
                            state := H.InitSent(index, tr.h, tr.ck, i.ephemeral, i.sent));
      AppendedIsLast(s, p);
      HP.MessageParses(s, index, p);
    } else {
      NothingSends(r);
    }
  }

  lemma EncapsulateCarries(t: Tunnel, src: Bytes, i: Input)
    ensures var (u, r) := Encapsulate(t, src, i);
            Carries(t.handshake, u.handshake, r) && KeepsTime(t, u)
  {
    hide FormatInitiation, S.FormatPacketData, SendsHandshake, IsLast;
    InitiationCarries(QueuePacket(t, src), false, i);
    if CurrentSession(t).Some? {
      DataSendsNoHandshake(CurrentSession(t).value, src);
    }
  }

  lemma FlushCarries(t: Tunnel, i: Input)
    ensures var (u, r) := SendQueuedPacket(t, i);
            Carries(t.handshake, u.handshake, r) && KeepsTime(t, u)
  {
    hide Encapsulate, SendsHandshake, IsLast;
    NothingSends(Done);
    if t.queue != [] {
      var (u, r) := Encapsulate(t.(queue := t.queue[1..]), t.queue[0], i);
      EncapsulateCarries(t.(queue := t.queue[1..]), t.queue[0], i);
      if r.Fault? {
        NothingSends(r);
      }
    }
  }

  lemma HandshakeInitCarries(t: Tunnel, p: Packet, i: Input)
    requires p.HandshakeInit?
    ensures var (u, r) := HandleHandshakeInit(t, p, i);
            Carries(t.handshake, u.handshake, r) && KeepsTime(t, u)
  {
    hide SendsHandshake, IsLast, H.ReadInitiation, H.After, H.AppendMacs, H.ResponderKey, TransportKeys, Encode;
    var (u, r) := HandleHandshakeInit(t, p, i);
    if r.WriteToNetwork? {
      var (time, tr) := H.ReadInitiation(t.handshake.params, p).value;
      var s := t.handshake.(lastTimestamp := time, previous := t.handshake.state,
                            state := H.InitReceived(tr.h, tr.ck, p.ephemeral, p.senderIdx));
      var index := H.IncIndex(s.nextIndex);
      var q := HandshakeResponse(index, p.senderIdx, PublicKey(i.ephemeral),
                                 SealField(H.ResponderKey(s.params, s.state, i.ephemeral), []));
      AppendedIsLast(s.(nextIndex := index, state := H.NoHandshake), q);
      HP.MessageParses(s.(nextIndex := index, state := H.NoHandshake), index, q);
    } else {
      NothingSends(r);
    }
  }

  lemma HandshakeResponseCarries(t: Tunnel, p: Packet, i: Input)
    requires p.HandshakeResponse?
    ensures var (u, r) := HandleHandshakeResponse(t, p, i);
            Carries(t.handshake, u.handshake, r) && KeepsTime(t, u)
  {
    hide SendsHandshake, IsLast, S.FormatPacketData, H.ResponseKey;
    var (h, r) := H.ReceiveResponse(t.handshake, p, i.later);
    if r.Ok? {
      DataSendsNoHandshake(r.value, []);
    } else {
      NothingSends(Fault(r.error));
    }
  }

  lemma DataCarries(t: Tunnel, p: Packet)
    requires p.PacketData?
    ensures var (u, r) := HandleData(t, p);
            u.handshake == t.handshake && KeepsTime(t, u) && !SendsHandshake(r)
  {
    hide SendsHandshake, S.ReceivePacketData, IpHeader;
    NothingSends(HandleData(t, p).1);
  }

  lemma UpdateEstablishedCarries(t: Tunnel, i: Input)
    ensures var (u, r) := UpdateEstablished(t, i);
            Carries(t.handshake, u.handshake, r) && KeepsTime(t, u)
  {
    hide FormatInitiation, Encapsulate, RekeyDue, SilenceDue, KeepaliveDue, PersistentKeepaliveDue, SendsHandshake,
         IsLast;
    var t1 := if SilenceDue(t.timers) then t.(timers := t.timers.(wantHandshake := false)) else t;
    var t2 := if KeepaliveDue(t.timers) then t1.(timers := t1.timers.(wantKeepalive := false)) else t1;
    var t3 := if PersistentKeepaliveDue(t.timers) then Tick(t2, TimePersistentKeepalive) else t2;
    InitiationCarries(t1, true, i);
    EncapsulateCarries(t3, [], i);
    NothingSends(Done);
  }

  /** An update drops a cookie that is COOKIE_EXPIRATION_TIME old, unless the connection has expired. */
  predicate DropsCookie(t: Tunnel, e: Event) {
    && e.TimerEvent? && !t.handshake.state.Expired? && t.handshake.cookies.writeCookie.Some?
    && H.Since(e.input.now, t.timers.timeStarted) - t.timers.values.cookieReceived >= COOKIE_EXPIRATION_TIME
  }

  lemma UpdateCarries(t: Tunnel, i: Input)
    ensures var (u, r) := UpdateTimers(t, i);
            var h := if DropsCookie(t, TimerEvent(i)) then H.ClearCookie(t.handshake) else t.handshake;
            Carries(h, u.handshake, r) && KeepsTime(t, u)
  {
    TR.BeginUpdateOnly(t, i);
    hide BeginUpdate, FormatInitiation, UpdateEstablished, SendsHandshake, IsLast;
    var t2 := DropOldCookie(BeginUpdate(t, i));
    forall r: TunnResult | !r.WriteToNetwork? ensures !SendsHandshake(r) {
      NothingSends(r);
    }
    InitiationCarries(t2, true, i);
    UpdateEstablishedCarries(t2, i);
  }

  predicate AcceptsCookie(t: Tunnel, e: Event) {
    e.Receive? && e.packet.PacketCookieReply? && H.ReceiveCookieReply(t.handshake, e.packet).1.Ok?
  }

  /** What one call does to the stored cookie: an accepted reply replaces it, an old enough one is
      dropped, and nothing else touches it. */
  lemma StepCarries(t: Tunnel, e: Event)
    ensures var (u, r) := Step(t, e);
            var h := if DropsCookie(t, e) then H.ClearCookie(t.handshake) else t.handshake;
            if AcceptsCookie(t, e) then
              && u.handshake == H.ReceiveCookieReply(t.handshake, e.packet).0 && r == Done
              && u.handshake == t.handshake.(cookies := u.handshake.cookies)
              && u.handshake.cookies == t.handshake.cookies.(writeCookie := u.handshake.cookies.writeCookie)
              && u.handshake.cookies.writeCookie.Some?
              && u.timers.values.cookieReceived == t.timers.values.current
            else Carries(h, u.handshake, r) && KeepsTime(t, u)
  {
    hide Encapsulate, SendQueuedPacket, UpdateTimers, HandleHandshakeInit, HandleHandshakeResponse, HandleData,
         SendsHandshake,
         IsLast, XOpen;
    match e
    case Send(src, i) => EncapsulateCarries(t, src, i);
    case Receive(p, i) =>
      match p {
        case HandshakeInit(_, _, _, _) => HandshakeInitCarries(t, p, i);
        case HandshakeResponse(_, _, _, _) => HandshakeResponseCarries(t, p, i);
        case PacketCookieReply(_, _, _) => NothingSends(HandleCookieReply(t, p).1);
        case PacketData(_, _, _) => DataCarries(t, p);
      }
    case Flush(i) => FlushCarries(t, i);
    case TimerEvent(i) => UpdateCarries(t, i);
    case Rekey(_, _) => NothingSends(Done);
  }

  // Whole runs

  function Run(t: Tunnel, events: seq<Event>): Tunnel
    decreases |events|
  {
    if events == [] then t else Run(Step(t, events[0]).0, events[1..])
  }

  /** No call of the run sends a handshake message. */
  predicate NoneSends(t: Tunnel, events: seq<Event>)
    decreases |events|
  {
    events != [] ==> !SendsHandshake(Step(t, events[0]).1) && NoneSends(Step(t, events[0]).0, events[1..])
  }

  /** No call of the run accepts a cookie reply. */
  predicate NoneAccepts(t: Tunnel, events: seq<Event>)
    decreases |events|
  {
    events != [] ==> !AcceptsCookie(t, events[0]) && NoneAccepts(Step(t, events[0]).0, events[1..])
  }

  /** Some update of the run drops the cookie. */
  predicate SomeDrops(t: Tunnel, events: seq<Event>)
    decreases |events|
  {
    events != [] && (DropsCookie(t, events[0]) || SomeDrops(Step(t, events[0]).0, events[1..]))
  }

  /** The connection does not expire during the run. */
  predicate StaysUp(t: Tunnel, events: seq<Event>)
    decreases |events|
  {
    !t.handshake.state.Expired? && (events != [] ==> StaysUp(Step(t, events[0]).0, events[1..]))
  }

  /** Until another reply is accepted, the stored cookie is kept exactly as long as no update
      drops it. */
  lemma {:induction false} CookieKeptIff(t: Tunnel, events: seq<Event>)
    requires t.handshake.cookies.writeCookie.Some? && NoneAccepts(t, events)
    ensures Run(t, events).handshake.cookies.writeCookie
         == if SomeDrops(t, events) then None else t.handshake.cookies.writeCookie
    ensures Run(t, events).handshake.params.peerStaticPublic == t.handshake.params.peerStaticPublic
    decreases |events|
  {
    if events != [] {
      hide Step, DropsCookie, AcceptsCookie, SendsHandshake, IsLast, KeepsTime;
      StepCarries(t, events[0]);
      var u := Step(t, events[0]).0;
      if DropsCookie(t, events[0]) {
        NoCookieReturns(u, events[1..]);
      } else {
        CookieKeptIff(u, events[1..]);
      }
    }
  }

  lemma {:induction false} NoCookieReturns(t: Tunnel, events: seq<Event>)
    requires t.handshake.cookies.writeCookie.None? && NoneAccepts(t, events)
    ensures Run(t, events).handshake.cookies.writeCookie.None?
    ensures Run(t, events).handshake.params.peerStaticPublic == t.handshake.params.peerStaticPublic
    decreases |events|
  {
    if events != [] {
      hide Step, AcceptsCookie, SendsHandshake, IsLast, KeepsTime;
      StepCarries(t, events[0]);
      NoCookieReturns(Step(t, events[0]).0, events[1..]);
    }
  }

  /** The first update of the run COOKIE_EXPIRATION_TIME after the reply, if there is one, drops the
      cookie of a connection that has not expired. */
  lemma {:induction false} DroppedIff(t: Tunnel, events: seq<Event>)
    requires t.handshake.cookies.writeCookie.Some? && NoneAccepts(t, events) && StaysUp(t, events)
    ensures SomeDrops(t, events)
       <==> exists k | 0 <= k < |events| ::
              && events[k].TimerEvent?
              && H.Since(events[k].input.now, t.timers.timeStarted) - t.timers.values.cookieReceived
                 >= COOKIE_EXPIRATION_TIME
    decreases |events|
  {
    if events != [] && !DropsCookie(t, events[0]) {
      hide Step, AcceptsCookie, SendsHandshake, IsLast;
      StepCarries(t, events[0]);
      TR.TimeStartedStays(t, events[0]);
      DroppedIff(Step(t, events[0]).0, events[1..]);
      assert forall k | 1 <= k < |events| :: events[k] == events[1..][k - 1];
      assert forall k | 0 <= k < |events| - 1 :: events[1..][k] == events[k + 1];
    }
  }

  /** As long as no handshake message is sent, a reply is checked against the same message. */
  lemma {:induction false} MessageStaysLast(t: Tunnel, events: seq<Event>)
    requires NoneSends(t, events)
    ensures var (h, h') := (t.handshake, Run(t, events).handshake);
            && h'.cookies.lastMac1 == h.cookies.lastMac1 && h'.cookies.index == h.cookies.index
            && h'.params.peerStaticPublic == h.params.peerStaticPublic
    decreases |events|
  {
    if events != [] {
      hide Step, DropsCookie, AcceptsCookie, SendsHandshake, IsLast, KeepsTime, H.ReceiveCookieReply;
      StepCarries(t, events[0]);
      MessageStaysLast(Step(t, events[0]).0, events[1..]);
    }
  }

  lemma LastIndex(h: H.State, wire: Bytes)
    requires IsLast(h, wire)
    ensures h.cookies.index == ParseIncomingPacket(wire).value.senderIdx
  {
    hide ParseIncomingPacket, Encode, Mac16;
  }

  /** A run with one more call. */
  lemma {:induction false} OneMoreCall(t: Tunnel, events: seq<Event>, e: Event)
    ensures Run(t, events + [e]) == Step(Run(t, events), e).0
    ensures NoneAccepts(t, events + [e]) <==> NoneAccepts(t, events) && !AcceptsCookie(Run(t, events), e)
    decreases |events|
  {
    hide Step, AcceptsCookie;
    if events == [] {
      assert events + [e] == [e];
    } else {
      assert (events + [e])[1..] == events[1..] + [e];
      OneMoreCall(Step(t, events[0]).0, events[1..], e);
    }
  }

  // The limiter

  /** What a run of the limiter does not change. */
  lemma {:induction false} LimiterKeepsKeys(rl: R.State, calls: seq<C.Call>)
    requires forall k | 0 <= k < |calls| :: C.LegalCall(calls[k])
    ensures var rl' := C.Exec(rl, calls);
            && rl'.mac1Key == rl.mac1Key && rl'.cookieKey == rl.cookieKey
            && rl'.secretKey == rl.secretKey && rl'.startTime == rl.startTime
  {
    if calls != [] {
      LimiterKeepsKeys(rl, calls[..|calls| - 1]);
      hide C.Exec, ParseIncomingPacket, Mac16, Encode, Mac24, XSeal, R.CookieFor, R.SplitMacs;
    }
  }

  /** A message formatted under the current cookie, or while the limiter is not loaded, passes; any
      other is answered with a cookie. */
  lemma LastPassesIff(h: H.State, wire: Bytes, rl: R.State, addr: R.IpAddr, dst: nat, now: nat)
    requires IsLast(h, wire) && C.Guards(rl, h.params) && R.IsAddr(addr)
    ensures var verdict := R.VerifyPacket(rl, Some(addr), wire, dst, now).1;
            && (verdict == R.Accepted(ParseIncomingPacket(wire).value)
                <==> rl.count < rl.limit || h.cookies.writeCookie == Some(R.CurrentCookie(rl, addr, now)))
            && (verdict.Accepted? ==> verdict == R.Accepted(ParseIncomingPacket(wire).value))
            && (verdict.Reply? <==> !verdict.Accepted? && dst >= COOKIE_REPLY_SZ)
  {
    hide ParseIncomingPacket, H.AppendMacs, Encode, R.VerifyPacket, R.CurrentCookie;
    var p := ParseIncomingPacket(wire).value;
    C.CookiePassesIff(h, p.senderIdx, p, rl, addr, dst, now);
  }

  /** A loaded limiter answers a handshake message with a cookie. Whatever the sender does in between,
      except sending another handshake message, it accepts the answer and stores the cookie. */
  lemma ReplyIsStored(t: Tunnel, e: Event, rl: R.State, addr: R.IpAddr, dst: nat, now: nat, between: seq<Event>,
                      i: Input)
    requires SendsHandshake(Step(t, e).1) && NoneSends(Step(t, e).0, between)
    requires C.Guards(rl, t.handshake.params) && R.IsAddr(addr)
    requires R.VerifyPacket(rl, Some(addr), Step(t, e).1.wire, dst, now).1.Reply?
    ensures var reply := ParseIncomingPacket(R.VerifyPacket(rl, Some(addr), Step(t, e).1.wire, dst, now).1.wire);
            && reply.Ok?
            && var t2 := Run(Step(t, e).0, between);
            && AcceptsCookie(t2, Receive(reply.value, i))
            && var t3 := Step(t2, Receive(reply.value, i)).0;
            && t3.handshake.cookies.writeCookie == Some(R.CurrentCookie(rl, addr, now))
            && t3.handshake.params.peerStaticPublic == t.handshake.params.peerStaticPublic
            && t3.timers.values.cookieReceived == t2.timers.values.current
  {
    hide ParseIncomingPacket, H.AppendMacs, Encode, R.VerifyPacket, R.CurrentCookie, Step, Run, NoneSends,
         H.ReceiveCookieReply,
         DropsCookie, KeepsTime;
    StepCarries(t, e);
    var (t1, r) := Step(t, e);
    var p := ParseIncomingPacket(r.wire).value;
    MessageStaysLast(t1, between);
    var t2 := Run(t1, between);
    LastIndex(t1.handshake, r.wire);
    C.ReplyIsAcceptedIff(t1.handshake, p, rl, Some(addr), dst, now, t2.handshake);
    StepCarries(t2, Receive(ParseIncomingPacket(R.VerifyPacket(rl, Some(addr), r.wire, dst, now).1.wire).value, i));
  }

  lemma VerifyKeepsKeys(rl: R.State, addr: R.IpAddr, src: Bytes, dst: nat, now: nat)
    requires R.IsAddr(addr)
    ensures var rl' := R.VerifyPacket(rl, Some(addr), src, dst, now).0;
            && rl'.mac1Key == rl.mac1Key && rl'.cookieKey == rl.cookieKey
            && rl'.secretKey == rl.secretKey && rl'.startTime == rl.startTime
  {
    hide ParseIncomingPacket, Mac16, Encode, Mac24, XSeal, R.CookieFor, R.SplitMacs;
  }

  /** A later message of a sender with the current cookie. */
  lemma LaterMessagePassesIff(t: Tunnel, rest: seq<Event>, last: Event, rl: R.State, addr: R.IpAddr, dst: nat, now: nat)
    requires C.Guards(rl, t.handshake.params) && R.IsAddr(addr)
    requires t.handshake.cookies.writeCookie == Some(R.CurrentCookie(rl, addr, now))
    requires NoneAccepts(t, rest) && SendsHandshake(Step(Run(t, rest), last).1)
    ensures var r := Step(Run(t, rest), last).1;
            (R.VerifyPacket(rl, Some(addr), r.wire, dst, now).1 == R.Accepted(ParseIncomingPacket(r.wire).value)
             <==> rl.count < rl.limit || !SomeDrops(t, rest + [last]))
  {
    hide ParseIncomingPacket, Encode, H.AppendMacs, Step, Run, NoneAccepts, SomeDrops, DropsCookie, KeepsTime,
         R.VerifyPacket,
         R.CurrentCookie, H.ReceiveCookieReply;
    var u := Run(t, rest);
    StepCarries(u, last);
    NothingSends(Done);
    OneMoreCall(t, rest, last);
    CookieKeptIff(t, rest + [last]);
    LastPassesIff(Step(u, last).0.handshake, Step(u, last).1.wire, rl, addr, dst, now);
  }

  /** The way of a cookie: a loaded limiter answers a handshake message; the sender sends no other
      before the answer arrives. Then, after anything the sender and the limiter do short of another
      accepted reply, a handshake message from the same address within the same period of
      COOKIE_REFRESH seconds passes exactly if the limiter is not loaded any more or no update, the
      call that sends the message included, has dropped the cookie. */
  lemma CookieCompleteness(t: Tunnel, e: Event, rl: R.State, addr: R.IpAddr, dst: nat, now: nat, between: seq<Event>,
                           i: Input,
                           rest: seq<Event>, last: Event, calls: seq<C.Call>, dst': nat, now': nat)
    requires SendsHandshake(Step(t, e).1) && NoneSends(Step(t, e).0, between)
    requires C.Guards(rl, t.handshake.params) && R.IsAddr(addr)
    requires forall k | 0 <= k < |calls| :: C.LegalCall(calls[k])
    ensures var (rl1, verdict) := R.VerifyPacket(rl, Some(addr), Step(t, e).1.wire, dst, now);
            verdict.Reply? ==>
            var reply := ParseIncomingPacket(verdict.wire);
            && reply.Ok?
            && var answered := Run(Step(t, e).0, between);
            && AcceptsCookie(answered, Receive(reply.value, i))
            && var stored := Step(answered, Receive(reply.value, i)).0;
            var (rl', r) := (C.Exec(rl1, calls), Step(Run(stored, rest), last).1);
            NoneAccepts(stored, rest) && SendsHandshake(r) && R.Epoch(rl', now') == R.Epoch(rl, now) ==>
              (R.VerifyPacket(rl', Some(addr), r.wire, dst', now').1 == R.Accepted(ParseIncomingPacket(r.wire).value)
               <==> rl'.count < rl'.limit || !SomeDrops(stored, rest + [last]))
  {
    hide ParseIncomingPacket, Encode, H.AppendMacs, Step, Run, NoneSends, NoneAccepts, SomeDrops, DropsCookie,
         KeepsTime,
         R.VerifyPacket, C.Exec, R.Epoch, AcceptsCookie;
    var (rl1, verdict) := R.VerifyPacket(rl, Some(addr), Step(t, e).1.wire, dst, now);
    if verdict.Reply? {
      ReplyIsStored(t, e, rl, addr, dst, now, between, i);
      var reply := ParseIncomingPacket(verdict.wire).value;
      var stored := Step(Run(Step(t, e).0, between), Receive(reply, i)).0;
      var rl' := C.Exec(rl1, calls);
      VerifyKeepsKeys(rl, addr, Step(t, e).1.wire, dst, now);
      LimiterKeepsKeys(rl1, calls);
      if NoneAccepts(stored, rest) && SendsHandshake(Step(Run(stored, rest), last).1)
         && R.Epoch(rl', now') == R.Epoch(rl, now) {
        LaterMessagePassesIff(stored, rest, last, rl', addr, dst', now');
      }
    }
  }

  // Where the cookie is lost

  /** A cookie that came before its session is never sent with the initiation that replaces the session
      for its age: the update that sends the initiation drops the cookie first. A limiter under load
      refuses that initiation, in whatever period it was. */
  lemma AgedSessionLosesCookie(t: Tunnel, i: Input, rl: R.State, addr: R.IpAddr, dst: nat, now: nat)
    requires I.InputOk(i) && !t.handshake.state.Expired? && !t.handshake.state.InitSent?
    requires t.timers.isInitiator && t.handshake.cookies.writeCookie.Some?
    requires t.timers.values.cookieReceived <= t.timers.values.sessionEstablished < t.timers.values.dataSent
    requires var age := H.Since(i.now, t.timers.timeStarted) - t.timers.values.sessionEstablished;
             REKEY_AFTER_TIME <= age < REJECT_AFTER_TIME * 3
    requires C.Guards(rl, t.handshake.params) && R.IsAddr(addr) && rl.count >= rl.limit
    ensures DropsCookie(t, TimerEvent(i))
    ensures var r := Step(t, TimerEvent(i)).1;
            SendsHandshake(r) && !R.VerifyPacket(rl, Some(addr), r.wire, dst, now).1.Accepted?
  {
    StepCarries(t, TimerEvent(i));
    TR.UpdateSendsIff(t, i);
    hide BeginUpdate, UpdateTimers, ParseIncomingPacket, R.VerifyPacket, R.CurrentCookie, IsLast;
    var (u, r) := Step(t, TimerEvent(i));
    LastPassesIff(u.handshake, r.wire, rl, addr, dst, now);
  }

  /** An expired connection keeps its cookie whatever its age; sending a packet starts a handshake under
      it and makes its time the present. */
  lemma ExpiryRenewsCookie(t: Tunnel, src: Bytes, i: Input)
    requires t.handshake.state.Expired? && t.sessions == NO_SESSIONS && I.InputOk(i)
    ensures var (u, r) := Step(t, Send(src, i));
            && SendsHandshake(r) && IsLast(u.handshake, r.wire)
            && u.handshake.cookies.writeCookie == t.handshake.cookies.writeCookie
            && u.timers.values.cookieReceived == u.timers.values.current == H.Since(i.now, t.timers.timeStarted)
  {
    hide FormatInitiation, IsLast, SendsHandshake, KeepsTime, S.FormatPacketData;
    InitiationCarries(QueuePacket(t, src), false, i);
    Restarts(QueuePacket(t, src), i);
  }

  lemma Restarts(t: Tunnel, i: Input)
    requires t.handshake.state.Expired? && I.InputOk(i)
    ensures var (u, r) := FormatInitiation(t, false, i);
            && SendsHandshake(r)
            && u.timers.values.cookieReceived == u.timers.values.current == H.Since(i.now, t.timers.timeStarted)
  {
    TR.InitiationIsSent(t, false, i);
    hide H.FormatInitiation, ParseIncomingPacket;
  }

  /** One call at one moment. */
  function Moment(now: nat, ephemeral: nat): Input {
    Input(now, now, now, ephemeral, HANDSHAKE_INIT_SZ)
  }

  /** A tunnel with a cookie retransmits its initiation 5 seconds after the first one. */
  lemma RetransmitsUnderCookie(t: Tunnel, i: Input)
    requires t.handshake.state.InitSent? && t.handshake.state.timeSent == 0 && t.timers.timeStarted == 0
    requires t.timers.values == AllAt(0) && i == Moment(5 * SECOND, i.ephemeral)
    ensures var (u, r) := Step(t, TimerEvent(i));
            var (h, m) := H.FormatInitiation(t.handshake, i.dstLen, i.ephemeral, i.sent);
            && u.handshake == h && m.Ok? && r == WriteToNetwork(m.value)
            && u.timers.timeStarted == 0
            && u.timers.values == AllAt(0).(current := 5 * SECOND, packetSent := 5 * SECOND)
            && u.sessions == t.sessions && u.timers.sessionTimers == t.timers.sessionTimers
            && u.timers.persistentKeepalive == t.timers.persistentKeepalive
  {
  }

  /** A session made 5 seconds after the start of a tunnel, over which nothing was sent yet. */
  predicate SessionAt5(t: Tunnel, current: nat) {
    && CurrentSession(t).Some? && t.timers.sessionTimers == [0, 0, 0, 0, 0, 0, 0, 0][t.current % 8 := 5 * SECOND]
    && t.timers.isInitiator && t.timers.timeStarted == 0 && t.timers.persistentKeepalive == 0
    && t.handshake.state.NoHandshake?
    && t.timers.values == AllAt(0).(current := current, sessionEstablished := 5 * SECOND, packetReceived := 5 * SECOND,
                                    packetSent := 5 * SECOND)
  }

  lemma SessionIsMade(t: Tunnel, p: Packet, i: Input)
    requires t.sessions == NO_SESSIONS && p.HandshakeResponse?
    requires t.timers.sessionTimers == [0, 0, 0, 0, 0, 0, 0, 0] && t.timers.timeStarted == 0
             && t.timers.persistentKeepalive == 0
    requires t.timers.values == AllAt(0).(current := 5 * SECOND, packetSent := 5 * SECOND)
    requires var (h, r) := H.ReceiveResponse(t.handshake, p, i.later);
             r.Ok? && h.state.NoHandshake?
    ensures var u := Step(t, Receive(p, i)).0;
            SessionAt5(u, 5 * SECOND) && u.handshake == H.ReceiveResponse(t.handshake, p, i.later).0
  {
    hide H.ReceiveResponse, S.FormatPacketData;
  }

  /** A second later, data is sent over it. */
  lemma DataIsSent(t: Tunnel, data: Bytes, ephemeral: nat)
    requires SessionAt5(t, 5 * SECOND) && data != []
    requires t.handshake.cookies.writeCookie.Some?
    ensures var u := Run(t, [TimerEvent(Moment(6 * SECOND, ephemeral)), Send(data, Moment(6 * SECOND, ephemeral))]);
            && u.handshake == t.handshake && u.timers.isInitiator && u.timers.timeStarted == 0
            && u.timers.values.cookieReceived == 0 && u.timers.values.sessionEstablished == 5 * SECOND
            && u.timers.values.dataSent == 6 * SECOND
  {
    var i := Moment(6 * SECOND, ephemeral);
    var t1 := Step(t, TimerEvent(i)).0;
    NothingToDo(t, i);
    var t2 := Step(t1, Send(data, i)).0;
    DataTicks(t1, data, i);
    assert [TimerEvent(i), Send(data, i)][1..] == [Send(data, i)];
    hide Step;
    assert Run(t, [TimerEvent(i), Send(data, i)]) == Run(t1, [Send(data, i)]) == Run(t2, []) == t2;
  }

  lemma NothingToDo(t: Tunnel, i: Input)
    requires SessionAt5(t, 5 * SECOND) && i == Moment(6 * SECOND, i.ephemeral)
    ensures var u := Step(t, TimerEvent(i)).0;
            SessionAt5(u, 6 * SECOND) && u.handshake == t.handshake
  {
    hide FormatInitiation, Encapsulate;
  }

  lemma DataTicks(t: Tunnel, data: Bytes, i: Input)
    requires SessionAt5(t, 6 * SECOND) && data != []
    ensures var u := Step(t, Send(data, i)).0;
            && u.handshake == t.handshake
            && u.timers == t.timers.(wantHandshake := true, wantKeepalive := false,
                                     values := t.timers.values.(packetSent := 6 * SECOND, dataSent := 6 * SECOND))
  {
    hide FormatInitiation, S.FormatPacketData;
  }

  /** A tunnel at its start that has sent its first initiation and was given a cookie. */
  predicate Waits(t: Tunnel, a: H.Params, cookie: Option<Bytes>) {
    && t.handshake.state.InitSent? && t.handshake.state.timeSent == 0
    && t.handshake.params == a && t.handshake.stamper == H.TimeStamper(0, 0)
       && t.handshake.cookies.writeCookie == cookie
    && t.sessions == NO_SESSIONS && t.timers.sessionTimers == [0, 0, 0, 0, 0, 0, 0, 0]
    && t.timers.timeStarted == 0 && t.timers.persistentKeepalive == 0 && t.timers.values == AllAt(0)
  }

  lemma FirstMessage(a: H.Params, e0: nat)
    ensures var t := New(a, 0, H.TimeStamper(0, 0), None, 0);
            var (u, r) := Step(t, Send([], Moment(0, e0)));
            Waits(u, a, None) && SendsHandshake(r) && IsLast(u.handshake, r.wire)
  {
    var t := New(a, 0, H.TimeStamper(0, 0), None, 0);
    var i := Moment(0, e0);
    HP.InitiationParses(t.handshake, HANDSHAKE_INIT_SZ, e0, 0);
    hide H.FormatInitiation, IsLast, ParseIncomingPacket, H.InitiationFields, SendsHandshake, FormatInitiation;
    StepCarries(t, Send([], i));
    FirstTicks(QueuePacket(t, []), a, i);
  }

  lemma FirstTicks(t: Tunnel, a: H.Params, i: Input)
    requires t.handshake == H.New(a, 0, H.TimeStamper(0, 0)) && i == Moment(0, i.ephemeral)
    requires t.timers.values == AllAt(0)
    ensures var (u, r) := FormatInitiation(t, false, i);
            && SendsHandshake(r) && u.handshake == H.FormatInitiation(t.handshake, i.dstLen, i.ephemeral, i.sent).0
            && u.timers.values == AllAt(0) && u.timers.timeStarted == t.timers.timeStarted
            && u.timers.sessionTimers == t.timers.sessionTimers && u.sessions == t.sessions
            && u.timers.persistentKeepalive == t.timers.persistentKeepalive
  {
    TR.InitiationIsSent(t, false, i);
    hide H.FormatInitiation, ParseIncomingPacket;
  }

  lemma CookieArrives(t: Tunnel, a: H.Params, p: Packet)
    requires Waits(t, a, None) && AcceptsCookie(t, Receive(p, Moment(0, 0)))
    ensures var u := Step(t, Receive(p, Moment(0, 0))).0;
            Waits(u, a, u.handshake.cookies.writeCookie) && u.handshake.cookies.writeCookie.Some?
  {
    StepCarries(t, Receive(p, Moment(0, 0)));
    hide H.ReceiveCookieReply;
  }

  /** A responder that starts anew answers any initiation formatted after the first instant. */
  lemma PeerAnswers(s: H.State, b: H.Params, ephemeral: nat, eR: nat, now: nat)
    requires HP.Peers(s.params, b) && H.Psk(s.params) == H.Psk(b)
    requires s.stamper == H.TimeStamper(0, 0) && SECOND <= now < 600 * SECOND
    ensures var (s1, init) := H.FormatInitiation(s, HANDSHAKE_INIT_SZ, ephemeral, now);
            && init.Ok? && ParseIncomingPacket(init.value).Ok? && ParseIncomingPacket(init.value).value.HandshakeInit?
            && s1.params == s.params
            && var packet := ParseIncomingPacket(init.value).value;
            var resp := H.ReceiveInitiation(H.New(b, 0, H.TimeStamper(0, 0)), packet, HANDSHAKE_INIT_SZ, eR).1;
            && resp.Ok? && ParseIncomingPacket(resp.value.0).Ok?
            && var p := ParseIncomingPacket(resp.value.0).value;
            && p.HandshakeResponse?
            && var (s2, r) := H.ReceiveResponse(s1, p, now);
            r.Ok? && s2.state.NoHandshake?
  {
    hide ParseIncomingPacket, H.ReceiveInitiation, H.FormatInitiation, H.ReceiveResponse, H.InitiationFields, HP.Peers,
         H.Psk;
    HP.InitiationParses(s, HANDSHAKE_INIT_SZ, ephemeral, now);
    HP.HandshakeAgreement(s, H.New(b, 0, H.TimeStamper(0, 0)), ephemeral, eR, HANDSHAKE_INIT_SZ, HANDSHAKE_INIT_SZ,
                          now, now);
  }

  lemma RetransmissionIsLast(t: Tunnel, a: H.Params, cookie: Bytes, e5: nat)
    requires Waits(t, a, Some(cookie))
    ensures var (u, r) := Step(t, TimerEvent(Moment(5 * SECOND, e5)));
            var (h, m) := H.FormatInitiation(t.handshake, HANDSHAKE_INIT_SZ, e5, 5 * SECOND);
            && u.handshake == h && m.Ok? && r == WriteToNetwork(m.value)
            && SendsHandshake(r) && IsLast(u.handshake, r.wire) && u.handshake.cookies.writeCookie == Some(cookie)
            && u.timers.values == AllAt(0).(current := 5 * SECOND, packetSent := 5 * SECOND)
            && u.sessions == NO_SESSIONS && u.timers.sessionTimers == [0, 0, 0, 0, 0, 0, 0, 0]
            && u.timers.timeStarted == 0 && u.timers.persistentKeepalive == 0
  {
    RetransmitsUnderCookie(t, Moment(5 * SECOND, e5));
    HP.InitiationParses(t.handshake, HANDSHAKE_INIT_SZ, e5, 5 * SECOND);
    hide ParseIncomingPacket, IsLast, H.FormatInitiation, H.InitiationFields, Step, KeepsTime;
    StepCarries(t, TimerEvent(Moment(5 * SECOND, e5)));
  }

  /** The retransmission passes, and its answer makes a session. */
  lemma SessionUnderCookie(t: Tunnel, a: H.Params, b: H.Params, rl: R.State, addr: R.IpAddr, cookie: Bytes, e5: nat,
                           eR: nat)
    requires R.IsAddr(addr) && Waits(t, a, Some(cookie)) && cookie == R.CurrentCookie(rl, addr, 5 * SECOND)
    requires HP.Peers(a, b) && H.Psk(a) == H.Psk(b) && C.Guards(rl, a)
    ensures var (u, r) := Step(t, TimerEvent(Moment(5 * SECOND, e5)));
            && SendsHandshake(r)
            && var verdict := R.VerifyPacket(rl, Some(addr), r.wire, COOKIE_REPLY_SZ, 5 * SECOND).1;
            && verdict.Accepted? && verdict.packet.HandshakeInit?
            && var resp := H.ReceiveInitiation(H.New(b, 0, H.TimeStamper(0, 0)), verdict.packet, HANDSHAKE_INIT_SZ,
                                               eR).1;
            && resp.Ok? && ParseIncomingPacket(resp.value.0).Ok?
            && var v := Step(u, Receive(ParseIncomingPacket(resp.value.0).value, Moment(5 * SECOND, 0))).0;
            && SessionAt5(v, 5 * SECOND) && v.handshake.params == a && v.handshake.cookies.writeCookie == Some(cookie)
  {
    hide ParseIncomingPacket, R.VerifyPacket, R.CurrentCookie, IsLast, H.ReceiveInitiation, H.FormatInitiation,
         H.ReceiveResponse, Step, HP.Peers, SessionAt5, H.New, H.Psk;
    RetransmissionIsLast(t, a, cookie, e5);
    PeerAnswers(t.handshake, b, e5, eR, 5 * SECOND);
    var (u, r) := Step(t, TimerEvent(Moment(5 * SECOND, e5)));
    LastPassesIff(u.handshake, r.wire, rl, addr, COOKIE_REPLY_SZ, 5 * SECOND);
    var packet := ParseIncomingPacket(r.wire).value;
    var answer := H.ReceiveInitiation(H.New(b, 0, H.TimeStamper(0, 0)), packet, HANDSHAKE_INIT_SZ, eR).1.value.0;
    var p := ParseIncomingPacket(answer).value;
    ResponseKeepsRest(u.handshake, p, 5 * SECOND);
    SessionIsMade(u, p, Moment(5 * SECOND, 0));
  }

  lemma ResponseKeepsRest(h: H.State, p: Packet, now: nat)
    requires p.HandshakeResponse?
    ensures var h' := H.ReceiveResponse(h, p, now).0;
            h'.params == h.params && h'.cookies == h.cookies
  {
    hide H.ResponseKey;
  }

  predicate SameLimiter(rl: R.State, rl': R.State) {
    rl'.mac1Key == rl.mac1Key && rl'.cookieKey == rl.cookieKey && rl'.secretKey == rl.secretKey
        && rl'.startTime == rl.startTime
  }

  /** A run that loses its cookie after 125 seconds, in the same period of 128 seconds: a first message
      answered with a cookie, a retransmission under that cookie, which passes, the responder's answer,
      one packet of data, and an update that replaces the session for its age. */
  lemma LostWithinPeriod(a: H.Params, b: H.Params, rl0: R.State, rl5: R.State, rl125: R.State, addr: R.IpAddr,
                         e0: nat, e5: nat, eR: nat, e125: nat, data: Bytes)
    requires HP.Peers(a, b) && H.Psk(a) == H.Psk(b) && data != [] && R.IsAddr(addr)
    requires C.Guards(rl0, a) && rl0.startTime == 0 && SameLimiter(rl0, rl5) && SameLimiter(rl0, rl125)
    requires rl0.count >= rl0.limit && rl5.count >= rl5.limit && rl125.count >= rl125.limit
    ensures var (t1, r0) := Step(New(a, 0, H.TimeStamper(0, 0), None, 0), Send([], Moment(0, e0)));
            && SendsHandshake(r0)
            && var reply := R.VerifyPacket(rl0, Some(addr), r0.wire, COOKIE_REPLY_SZ, 0).1;
            && reply.Reply? && ParseIncomingPacket(reply.wire).Ok?
            && var t2 := Step(t1, Receive(ParseIncomingPacket(reply.wire).value, Moment(0, 0))).0;
            && t2.handshake.cookies.writeCookie == Some(R.CurrentCookie(rl0, addr, 0))
            && var (t3, r5) := Step(t2, TimerEvent(Moment(5 * SECOND, e5)));
            && SendsHandshake(r5)
            && var init := R.VerifyPacket(rl5, Some(addr), r5.wire, COOKIE_REPLY_SZ, 5 * SECOND).1;
            && init.Accepted? && init.packet.HandshakeInit?
            && var resp := H.ReceiveInitiation(H.New(b, 0, H.TimeStamper(0, 0)), init.packet, HANDSHAKE_INIT_SZ, eR).1;
            && resp.Ok? && ParseIncomingPacket(resp.value.0).Ok?
            && var t4 := Step(t3, Receive(ParseIncomingPacket(resp.value.0).value, Moment(5 * SECOND, 0))).0;
            var t5 := Run(t4, [TimerEvent(Moment(6 * SECOND, 0)), Send(data, Moment(6 * SECOND, 0))]);
            var r125 := Step(t5, TimerEvent(Moment(125 * SECOND, e125))).1;
            && SendsHandshake(r125) && R.Epoch(rl125, 125 * SECOND) == R.Epoch(rl0, 0)
            && !R.VerifyPacket(rl125, Some(addr), r125.wire, COOKIE_REPLY_SZ, 125 * SECOND).1.Accepted?
  {
    hide ParseIncomingPacket, R.VerifyPacket, R.CurrentCookie, Step, Run, IsLast, H.ReceiveInitiation, SessionAt5,
         DropsCookie, NoneSends, HP.Peers, AcceptsCookie;
    FirstMessage(a, e0);
    var t0 := New(a, 0, H.TimeStamper(0, 0), None, 0);
    var (t1, r0) := Step(t0, Send([], Moment(0, e0)));
    LastPassesIff(t1.handshake, r0.wire, rl0, addr, COOKIE_REPLY_SZ, 0);
    NothingBetween(t1);
    ReplyIsStored(t0, Send([], Moment(0, e0)), rl0, addr, COOKIE_REPLY_SZ, 0, [], Moment(0, 0));
    var p := ParseIncomingPacket(R.VerifyPacket(rl0, Some(addr), r0.wire, COOKIE_REPLY_SZ, 0).1.wire).value;
    CookieArrives(t1, a, p);
    var t2 := Step(t1, Receive(p, Moment(0, 0))).0;
    FirstPeriod(rl0, rl5, addr, 5 * SECOND);
    FirstPeriod(rl0, rl125, addr, 125 * SECOND);
    SessionUnderCookie(t2, a, b, rl5, addr, R.CurrentCookie(rl0, addr, 0), e5, eR);
    var (t3, r5) := Step(t2, TimerEvent(Moment(5 * SECOND, e5)));
    var init := R.VerifyPacket(rl5, Some(addr), r5.wire, COOKIE_REPLY_SZ, 5 * SECOND).1.packet;
    var resp := H.ReceiveInitiation(H.New(b, 0, H.TimeStamper(0, 0)), init, HANDSHAKE_INIT_SZ, eR).1.value.0;
    var t4 := Step(t3, Receive(ParseIncomingPacket(resp).value, Moment(5 * SECOND, 0))).0;
    DataIsSent(t4, data, 0);
    var t5 := Run(t4, [TimerEvent(Moment(6 * SECOND, 0)), Send(data, Moment(6 * SECOND, 0))]);
    AtRest(t4, 5 * SECOND);
    AgedSessionLosesCookie(t5, Moment(125 * SECOND, e125), rl125, addr, COOKIE_REPLY_SZ, 125 * SECOND);
  }

  lemma NothingBetween(t: Tunnel)
    ensures NoneSends(t, []) && Run(t, []) == t
  {
  }

  lemma AtRest(t: Tunnel, current: nat)
    requires SessionAt5(t, current)
    ensures t.handshake.state.NoHandshake?
  {
  }

  lemma FirstPeriod(rl: R.State, rl': R.State, addr: R.IpAddr, now: nat)
    requires rl.startTime == 0 && SameLimiter(rl, rl') && R.IsAddr(addr) && now < R.COOKIE_REFRESH * SECOND
    ensures R.Epoch(rl', now) == R.Epoch(rl, 0) && R.CurrentCookie(rl', addr, now) == R.CurrentCookie(rl, addr, 0)
  {
  }
}
