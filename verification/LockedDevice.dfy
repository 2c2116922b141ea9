/** The device behind the cooperative lock. Its configuration requests run in the mutation closure, so
    a panic of theirs is one of the closure. */
module LockedDevice {
  import opened Wrappers
  import opened Crypto
  import opened PeerUpdates
  import opened DevLock
  import opened DevLockData
  import Cycle = LfsrCycle

  /** The lines of a request that the closure carries out. */
  datatype Command =
    | SetKey
    | ReplacePeers
    | UpdatePeer(key: Bytes, remove: bool)

  /** What a request leaves behind, and whether it panics on the way. */
  function Serve(d: Content, request: seq<Command>): (Content, bool)
    decreases |request|
  {
    if request == [] then (d, false)
    else
      match request[0]
      case SetKey => Serve(d.(keyed := true), request[1..])
      case ReplacePeers => Serve(d.(peers := {}), request[1..])
      case UpdatePeer(key, remove) =>
        var (u, outcome) := Update(d, key, remove);
        if PeerUpdates.Panics(outcome) then (u, true) else Serve(u, request[1..])
  }

  /** An update that panics: it adds a peer the device has, or one too many, or has no private key. */
  predicate Fatal(d: Content, c: Command) {
    c.UpdatePeer? && !c.remove && (c.key in d.peers || !d.keyed || d.drawn == Cycle.CYCLE - 1)
  }

  lemma {:induction false} ServeOn(d: Content, request: seq<Command>, j: nat)
    requires j <= |request| && !Serve(d, request[..j]).1
    ensures Serve(d, request) == Serve(Serve(d, request[..j]).0, request[j..])
    decreases j
  {
    if j > 0 {
      hide Update;
      var front := request[..j];
      assert front[0] == request[0] && front[1..] == request[1..][..j - 1];
      assert request[j..] == request[1..][j - 1..];
      var c := request[0];
      var u := match c
               case SetKey => d.(keyed := true)
               case ReplacePeers => d.(peers := {})
               case UpdatePeer(key, remove) => Update(d, key, remove).0;
      ServeOn(u, request[1..], j - 1);
    } else {
      assert request[..0] == [] && request[0..] == request;
    }
  }

  /** A request panics exactly if one of its updates meets one of the three conditions in what the
      ones before it have left. */
  lemma {:induction false} ServePanicsIff(d: Content, request: seq<Command>)
    ensures Serve(d, request).1
       <==> exists j :: 0 <= j < |request| && !Serve(d, request[..j]).1 && Fatal(Serve(d, request[..j]).0, request[j])
  {
    if j :| 0 <= j < |request| && !Serve(d, request[..j]).1 && Fatal(Serve(d, request[..j]).0, request[j]) {
      ServeOn(d, request, j);
      assert request[j..][0] == request[j];
    }
    if Serve(d, request).1 {
      var j := FirstFatal(d, request);
    }
  }

  lemma {:induction false} FirstFatal(d: Content, request: seq<Command>) returns (j: nat)
    requires Serve(d, request).1
    ensures j < |request| && !Serve(d, request[..j]).1 && Fatal(Serve(d, request[..j]).0, request[j])
    decreases |request|
  {
    if Fatal(d, request[0]) {
      j := 0;
      assert request[..0] == [];
    } else {
      var c := request[0];
      var u := match c
               case SetKey => d.(keyed := true)
               case ReplacePeers => d.(peers := {})
               case UpdatePeer(key, remove) => Update(d, key, remove).0;
      var i := FirstFatal(u, request[1..]);
      j := i + 1;
      assert request[..j][0] == c && request[..j][1..] == request[1..][..i];
    }
  }

  /** A turn of a thread, with the request it carries out if it is in the mutation closure. The
      preparation closure does not panic. */
  datatype Action = Action(thread: nat, upgrade: bool, request: seq<Command>)

  predicate Serves(s: State<Content>, a: Action) {
    a.thread < |s.pc| && s.pc[a.thread].Mutates?
  }

  function TurnOf(s: State<Content>, a: Action): (nat, Choice<Content>) {
    var (d, panics) := Serve(s.data, a.request);
    (a.thread, Choice(a.upgrade, d, Serves(s, a) && panics))
  }

  /** The turns of a script, and the state after them. */
  function Play(s: State<Content>, script: seq<Action>): Option<(State<Content>, seq<(nat, Choice<Content>)>)> {
    if script == [] then Some((s, []))
    else
      match Play(s, script[..|script| - 1])
      case None => None
      case Some((u, turns)) =>
        var (t, c) := TurnOf(u, script[|script| - 1]);
        if t < |u.pc| && Enabled(u, t) then Some((Step(u, t, c), turns + [(t, c)])) else None
  }

  lemma {:induction false} PlayIsExec(s: State<Content>, script: seq<Action>)
    requires Play(s, script).Some?
    ensures var (u, turns) := Play(s, script).value; |turns| == |script| && Exec(s, turns) == Some(u)
  {
    hide Step, Enabled, TurnOf;
    if script != [] {
      var before := script[..|script| - 1];
      PlayIsExec(s, before);
      var (u, turns) := Play(s, before).value;
      var turn := TurnOf(u, script[|script| - 1]);
      assert (turns + [turn])[..|turns|] == turns;
    }
  }

  /** Some mutation of the script carries out a request that panics. */
  ghost predicate Fails(s: State<Content>, script: seq<Action>) {
    exists k :: 0 <= k < |script| && FailsAt(s, script, k)
  }

  ghost predicate FailsAt(s: State<Content>, script: seq<Action>, k: nat)
    requires k < |script|
  {
    && Play(s, script[..k]).Some?
    && Serves(Play(s, script[..k]).value.0, script[k])
    && Serve(Play(s, script[..k]).value.0.data, script[k].request).1
  }

  /** In every run a thread has crashed exactly if some request carried out by then was one that
      panics. */
  lemma {:induction false} CrashedIffFailed(s: State<Content>, script: seq<Action>)
    requires !SomeoneCrashed(s) && Play(s, script).Some?
    ensures SomeoneCrashed(Play(s, script).value.0) <==> Fails(s, script)
  {
    if script != [] {
      hide Step, Enabled, SomeoneCrashed, DevLock.Panics, TurnOf, Fails, FailsAt, Serves, Serve;
      var last := |script| - 1;
      CrashedIffFailed(s, script[..last]);
      LastAction(s, script);
      var u := Play(s, script[..last]).value.0;
      CrashedIff(u, TurnOf(u, script[last]).0, TurnOf(u, script[last]).1);
      OnlyMutationsPanic(u, script[last]);
    }
  }

  lemma LastAction(s: State<Content>, script: seq<Action>)
    requires script != [] && Play(s, script[..|script| - 1]).Some?
    ensures var last := |script| - 1;
            var u := Play(s, script[..last]).value.0;
            Fails(s, script) <==>
              || Fails(s, script[..last])
              || (Serves(u, script[last]) && Serve(u.data, script[last].request).1)
  {
    hide Play, Serves, Serve;
    var last := |script| - 1;
    var before := script[..last];
    forall k | 0 <= k < last
      ensures FailsAt(s, script, k) <==> FailsAt(s, before, k)
    {
      assert script[..k] == before[..k];
    }
    hide FailsAt;
    LastFails(s, script);
    if k :| 0 <= k < last && FailsAt(s, before, k) {
      assert FailsAt(s, script, k);
    }
  }

  lemma LastFails(s: State<Content>, script: seq<Action>)
    requires script != [] && Play(s, script[..|script| - 1]).Some?
    ensures var last := |script| - 1;
            var u := Play(s, script[..last]).value.0;
            FailsAt(s, script, last) <==> Serves(u, script[last]) && Serve(u.data, script[last].request).1
  {
    hide Play, Serves, Serve;
  }

  lemma OnlyMutationsPanic(s: State<Content>, a: Action)
    ensures DevLock.Panics(s, TurnOf(s, a)) <==> Serves(s, a) && Serve(s.data, a.request).1
  {
    hide Serve;
  }

  /** The device stops for good exactly by a request that panics. From any reachable state in which a
      thread carries out such a request, every continuation comes to an end within four turns a
      thread; the configuration stays as the request left it; and where it ends everybody is parked,
      but for the thread that died. */
  lemma FailedRequestStopsDevice(threads: nat, d: Content, script: seq<Action>, a: Action,
                                 rest: seq<(nat, Choice<Content>)>)
    requires Play(New(threads, d), script).Some?
    requires var s := Play(New(threads, d), script).value.0;
             && Serves(s, a) && Serve(s.data, a.request).1
             && Exec(Step(s, a.thread, TurnOf(s, a).1), rest).Some?
    ensures var s := Play(New(threads, d), script).value.0;
            var u := Exec(Step(s, a.thread, TurnOf(s, a).1), rest).value;
            && |rest| <= 4 * |s.pc| && |u.pc| == |s.pc|
            && u.wantsWrite && u.data == Serve(s.data, a.request).0
            && (forall t: nat | t < |u.pc| :: !u.pc[t].ReadReturns? && !u.pc[t].Mutates?)
            && ((forall t: nat | t < |u.pc| :: !Enabled(u, t))
                <==> forall t: nat | t < |u.pc| :: if t == a.thread then u.pc[t].Dead? else Parked(u.pc[t]))
  {
    var s := Play(New(threads, d), script).value.0;
    ReachableIsOk(threads, d, script);
    hide Serve, Play, Inv, Exec, Step;
    var (t, c) := TurnOf(s, a);
    MutatingMoves(s, t);
    StepKeepsInv(s, t, c);
    var v := Step(s, t, c);
    FailureUnwinds(s, a);
    PanicStopsEverybody(v, t, rest);
  }

  lemma ReachableIsOk(threads: nat, d: Content, script: seq<Action>)
    requires Play(New(threads, d), script).Some?
    ensures Inv(Play(New(threads, d), script).value.0)
  {
    hide Inv, Exec, Play;
    PlayIsExec(New(threads, d), script);
    NewIsOk(threads, d);
    RunKeepsInv(New(threads, d), Play(New(threads, d), script).value.1);
  }

  lemma MutatingMoves(s: State<Content>, t: nat)
    requires t < |s.pc| && s.pc[t].Mutates?
    ensures Enabled(s, t)
  {
  }

  lemma FailureUnwinds(s: State<Content>, a: Action)
    requires Serves(s, a) && Serve(s.data, a.request).1
    ensures var v := Step(s, a.thread, TurnOf(s, a).1);
            && |v.pc| == |s.pc| && Crashed(v.pc[a.thread]) && v.data == Serve(s.data, a.request).0
  {
    hide Serve;
  }

  /** A request that adds a peer the device has is one. */
  lemma AddingAgainFails(d: Content, key: Bytes)
    requires key in d.peers
    ensures Serve(d, [UpdatePeer(key, false)]) == (d, true)
  {
  }

  // What the configuration is

  /** The requests of a script that were carried out, in order. */
  function Carried(s: State<Content>, script: seq<Action>): seq<seq<Command>> {
    if script == [] then []
    else
      var last := |script| - 1;
      Carried(s, script[..last])
      + match Play(s, script[..last])
        case Some((u, _)) => if Serves(u, script[last]) then [script[last].request] else []
        case None => []
  }

  /** One request after the other, by one caller alone. */
  function ServeAll(d: Content, requests: seq<seq<Command>>): Content {
    if requests == [] then d else Serve(ServeAll(d, requests[..|requests| - 1]), requests[|requests| - 1]).0
  }

  /** In every run, however the threads interleave, the configuration is what one caller gets who sends
      the requests that were carried out one after the other. */
  lemma {:induction false} ConfigurationIsServed(s: State<Content>, script: seq<Action>)
    requires Play(s, script).Some?
    ensures Play(s, script).value.0.data == ServeAll(s.data, Carried(s, script))
  {
    if script != [] {
      hide Step, Enabled, Serve, TurnOf;
      var last := |script| - 1;
      ConfigurationIsServed(s, script[..last]);
      var u := Play(s, script[..last]).value.0;
      LeavesServed(u, script[last]);
      var before := Carried(s, script[..last]);
      if Serves(u, script[last]) {
        assert (before + [script[last].request])[..|before|] == before;
      } else {
        assert before + [] == before;
      }
    }
  }

  lemma LeavesServed(s: State<Content>, a: Action)
    requires a.thread < |s.pc|
    ensures var (t, c) := TurnOf(s, a);
            && t == a.thread
            && Step(s, t, c).data == if Serves(s, a) then Serve(s.data, a.request).0 else s.data
  {
    OnlyMutationsWrite(s, a.thread, TurnOf(s, a).1);
    hide Step, Serve;
  }

  function Flatten(requests: seq<seq<Command>>): seq<Command> {
    if requests == [] then [] else Flatten(requests[..|requests| - 1]) + requests[|requests| - 1]
  }

  predicate NonePanics(d: Content, requests: seq<seq<Command>>) {
    requests == []
    || (&& NonePanics(d, requests[..|requests| - 1])
        && !Serve(ServeAll(d, requests[..|requests| - 1]), requests[|requests| - 1]).1)
  }

  /** As long as no request panics they can be taken for a single one. */
  lemma {:induction false} ServeAllIsServe(d: Content, requests: seq<seq<Command>>)
    requires NonePanics(d, requests)
    ensures Serve(d, Flatten(requests)) == (ServeAll(d, requests), false)
  {
    if requests != [] {
      hide Serve;
      var last := |requests| - 1;
      var front := Flatten(requests[..last]);
      ServeAllIsServe(d, requests[..last]);
      assert (front + requests[last])[..|front|] == front;
      assert (front + requests[last])[|front|..] == requests[last];
      ServeOn(d, front + requests[last], |front|);
    } else {
      assert Serve(d, []) == (d, false);
    }
  }

  /** The command concerns the peer. */
  predicate Touches(c: Command, key: Bytes) {
    c.ReplacePeers? || (c.UpdatePeer? && c.key == key)
  }

  ghost predicate UntouchedFrom(request: seq<Command>, j: nat, key: Bytes) {
    forall k | j <= k < |request| :: !Touches(request[k], key)
  }

  /** The j-th command adds the peer, and none after it concerns the peer. */
  ghost predicate AddsLast(request: seq<Command>, j: nat, key: Bytes) {
    j < |request| && request[j] == UpdatePeer(key, false) && UntouchedFrom(request, j + 1, key)
  }

  /** What a request that does not panic leaves: a private key if there was one or one was set; and a
      peer exactly if the last command that concerns it added it, or if it was there and none does. */
  lemma {:induction false} ServeLeaves(d: Content, request: seq<Command>, key: Bytes)
    requires !Serve(d, request).1
    ensures Serve(d, request).0.keyed <==> d.keyed || SetKey in request
    ensures key in Serve(d, request).0.peers
       <==> || (key in d.peers && UntouchedFrom(request, 0, key))
            || exists j: nat :: AddsLast(request, j, key)
    decreases |request|
  {
    if request != [] {
      var last := |request| - 1;
      var (before, c) := (request[..last], request[last]);
      ServeFront(d, request);
      ServeLeaves(d, before, key);
      var u := Serve(d, before).0;
      OneCommand(u, c, key);
      hide Serve;
      assert SetKey in request <==> SetKey in before || c == SetKey;
      assert UntouchedFrom(request, 0, key) <==> UntouchedFrom(before, 0, key) && !Touches(c, key);
      forall j: nat | j < last
        ensures AddsLast(request, j, key) <==> AddsLast(before, j, key) && !Touches(c, key)
      {
        UntouchedOn(request, j + 1, key);
      }
      assert AddsLast(request, last, key) <==> c == UpdatePeer(key, false);
    }
  }

  lemma UntouchedOn(request: seq<Command>, j: nat, key: Bytes)
    requires j < |request|
    ensures UntouchedFrom(request, j, key)
       <==> UntouchedFrom(request[..|request| - 1], j, key) && !Touches(request[|request| - 1], key)
  {
  }

  lemma ServeFront(d: Content, request: seq<Command>)
    requires request != [] && !Serve(d, request).1
    ensures var last := |request| - 1;
            && !Serve(d, request[..last]).1
            && Serve(d, request) == Serve(Serve(d, request[..last]).0, [request[last]])
  {
    hide Update;
    var last := |request| - 1;
    assert request[last..] == [request[last]];
    if Serve(d, request[..last]).1 {
      FrontPanics(d, request, last);
    } else {
      ServeOn(d, request, last);
    }
  }

  lemma {:induction false} FrontPanics(d: Content, request: seq<Command>, j: nat)
    requires j <= |request| && Serve(d, request[..j]).1
    ensures Serve(d, request).1
  {
    var i := FirstFatal(d, request[..j]);
    assert request[..j][..i] == request[..i];
    ServePanicsIff(d, request);
  }

  lemma OneCommand(d: Content, c: Command, key: Bytes)
    requires !Serve(d, [c]).1
    ensures Serve(d, [c]).0.keyed <==> d.keyed || c == SetKey
    ensures key in Serve(d, [c]).0.peers <==> (key in d.peers && !Touches(c, key)) || c == UpdatePeer(key, false)
  {
    assert [c][1..] == [];
  }
}
