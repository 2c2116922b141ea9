/** What the threads of the cooperative lock read and write: the data is always what the last mutation
    left, and nobody who reads sees it change. */
module DevLockData {
  import opened Wrappers
  import opened DevLock

  /** The mutations of a run, in order: by whom, and what the closure left. */
  function Mutations<T>(s: State<T>, turns: seq<(nat, Choice<T>)>): seq<(nat, T)> {
    if turns == [] then []
    else
      var before := turns[..|turns| - 1];
      var (t, c) := turns[|turns| - 1];
      Mutations(s, before) + if MutatesAt(Exec(s, before), t) then [(t, c.value)] else []
  }

  predicate MutatesAt<T>(s: Option<State<T>>, t: nat) {
    s.Some? && t < |s.value.pc| && s.value.pc[t].Mutates?
  }

  function Last<T>(data: T, mutations: seq<(nat, T)>): T {
    if mutations == [] then data else mutations[|mutations| - 1].1
  }

  lemma OnlyMutationsWrite<T>(s: State<T>, t: nat, c: Choice<T>)
    requires t < |s.pc|
    ensures Step(s, t, c).data == if s.pc[t].Mutates? then c.value else s.data
  {
  }

  /** In every state of every run the data is what the last mutation left, whether it panicked or not,
      or the initial data if there was none. */
  lemma {:induction false} DataIsLastMutation<T>(s: State<T>, turns: seq<(nat, Choice<T>)>)
    requires Exec(s, turns).Some?
    ensures Exec(s, turns).value.data == Last(s.data, Mutations(s, turns))
  {
    if turns != [] {
      hide Step, Enabled;
      var before := turns[..|turns| - 1];
      DataIsLastMutation(s, before);
      OnlyMutationsWrite(Exec(s, before).value, turns[|turns| - 1].0, turns[|turns| - 1].1);
    }
  }

  /** Between its mutation and the return from try_writeable(). */
  predicate AfterMutation<T>(pc: Pc<T>) {
    pc.MutatedRereads? || pc.ClearLocksFlag? || pc.Clears? || pc.Notifies? || pc.ClearUnlocksFlag?
  }

  lemma OwnMovesOn<T>(s: State<T>, t: nat, c: Choice<T>)
    requires t < |s.pc|
    ensures var u := Step(s, t, c);
            && |u.pc| == |s.pc|
            && (AfterMutation(u.pc[t]) <==>
                  (s.pc[t].Mutates? && !c.panics) || (AfterMutation(s.pc[t]) && !s.pc[t].ClearUnlocksFlag?))
  {
    if AfterMutation(s.pc[t]) {
    } else if s.pc[t].Mutates? {
    } else {
    }
  }

  lemma OwnStaysUp<T>(s: State<T>, t: nat, c: Choice<T>)
    requires t < |s.pc|
    ensures var u := Step(s, t, c);
            && |u.pc| == |s.pc|
            && (!Crashed(u.pc[t]) ==> !Crashed(s.pc[t]) && !(s.pc[t].Mutates? && c.panics))
  {
  }

  lemma OthersMoveOn<T>(s: State<T>, t: nat, c: Choice<T>, k: nat)
    requires t < |s.pc| && k < |s.pc| && k != t
    ensures |Step(s, t, c).pc| == |s.pc|
    ensures Step(s, t, c).pc[k] == s.pc[k] || Step(s, t, c).pc[k] == Woken(s.pc[k])
  {
  }

  lemma StepMovesOn<T>(s: State<T>, t: nat, c: Choice<T>, k: nat)
    requires t < |s.pc| && k < |s.pc|
    ensures var u := Step(s, t, c);
            && |u.pc| == |s.pc|
            && (AfterMutation(u.pc[k]) <==>
                  if k == t then (s.pc[t].Mutates? && !c.panics)
                     || (AfterMutation(s.pc[t]) && !s.pc[t].ClearUnlocksFlag?)
                  else AfterMutation(s.pc[k]))
            && (!Crashed(u.pc[k]) ==> !Crashed(s.pc[k]) && !(k == t && s.pc[t].Mutates? && c.panics))
  {
    hide Step;
    OwnMovesOn(s, t, c);
    OwnStaysUp(s, t, c);
    if k != t {
      OthersMoveOn(s, t, c, k);
    }
  }

  /** Nobody mutates while a thread has still to return from its own mutation. */
  lemma NoneMutates<T>(s: State<T>, t: nat, k: nat)
    requires Inv(s) && t < |s.pc| && k < |s.pc| && t != k && AfterMutation(s.pc[k])
    ensures !s.pc[t].Mutates?
  {
    hide LocksOk, WakeupsOk, DataOk;
    assert !(Raised(s.pc[t]) && Raised(s.pc[k])) by {
      assert t < k || k < t;
    }
  }

  /** Until a thread returns from try_writeable() the data is what its own closure left. */
  lemma {:induction false} OwnMutationStands<T>(s: State<T>, turns: seq<(nat, Choice<T>)>, k: nat)
    requires Inv(s) && Exec(s, turns).Some? && k < |s.pc| && !AfterMutation(s.pc[k])
    ensures var (u, m) := (Exec(s, turns).value, Mutations(s, turns));
            && |u.pc| == |s.pc|
            && (AfterMutation(u.pc[k]) ==> m != [] && m[|m| - 1].0 == k)
  {
    if turns != [] {
      hide Step, Enabled, Inv, AfterMutation;
      var before := turns[..|turns| - 1];
      var (t, c) := turns[|turns| - 1];
      var u := Exec(s, before).value;
      OwnMutationStands(s, before, k);
      RunKeepsInv(s, before);
      StepMovesOn(u, t, c, k);
      if k != t && AfterMutation(u.pc[k]) {
        NoneMutates(u, t, k);
      }
    }
  }

  /** How many of the mutations are the thread's, and how often it returned from try_writeable(). */
  function Own<T>(mutations: seq<(nat, T)>, k: nat): nat {
    if mutations == [] then 0
    else Own(mutations[..|mutations| - 1], k) + if mutations[|mutations| - 1].0 == k then 1 else 0
  }

  function Returns<T>(s: State<T>, turns: seq<(nat, Choice<T>)>, k: nat): nat {
    if turns == [] then 0
    else
      var before := turns[..|turns| - 1];
      var t := turns[|turns| - 1].0;
      Returns(s, before, k)
      + if t == k && Exec(s, before).Some? && t < |Exec(s, before).value.pc|
          && Exec(s, before).value.pc[t].ClearUnlocksFlag?
        then 1 else 0
  }

  /** Each call of try_writeable() that returns has mutated exactly once. */
  lemma {:induction false} EachReturnMutatedOnce<T>(s: State<T>, turns: seq<(nat, Choice<T>)>, k: nat)
    requires Exec(s, turns).Some? && k < |s.pc| && !AfterMutation(s.pc[k])
    ensures var u := Exec(s, turns).value;
            && |u.pc| == |s.pc|
            && (!Crashed(u.pc[k]) ==>
                  Own(Mutations(s, turns), k) == Returns(s, turns, k) + if AfterMutation(u.pc[k]) then 1 else 0)
  {
    if turns != [] {
      hide Step, Enabled, AfterMutation, Crashed;
      var before := turns[..|turns| - 1];
      var (t, c) := turns[|turns| - 1];
      EachReturnMutatedOnce(s, before, k);
      StepMovesOn(Exec(s, before).value, t, c, k);
      Places(Exec(s, before).value.pc[t]);
      if MutatesAt(Exec(s, before), t) {
        OneMore(Mutations(s, before), (t, c.value), k);
      } else {
        assert Mutations(s, turns) == Mutations(s, before);
      }
    }
  }

  lemma OneMore<T>(mutations: seq<(nat, T)>, m: (nat, T), k: nat)
    ensures Own(mutations + [m], k) == Own(mutations, k) + if m.0 == k then 1 else 0
  {
    assert (mutations + [m])[..|mutations|] == mutations;
  }

  lemma Places<T>(pc: Pc<T>)
    ensures pc.ClearUnlocksFlag? ==> AfterMutation(pc)
    ensures pc.Mutates? ==> !AfterMutation(pc)
  {
  }

  /** The thread reads at the beginning of the run and never stops. */
  ghost predicate ReadsThroughout<T>(s: State<T>, turns: seq<(nat, Choice<T>)>, k: nat) {
    forall j | 0 <= j <= |turns| ::
      Exec(s, turns[..j]).Some? && k < |Exec(s, turns[..j]).value.pc| && Reads(Exec(s, turns[..j]).value.pc[k])
  }

  /** While a thread holds a read lock nobody mutates, and the data stays what it is. */
  lemma {:induction false} HeldDataIsStable<T>(s: State<T>, turns: seq<(nat, Choice<T>)>, k: nat)
    requires Inv(s) && Exec(s, turns).Some? && ReadsThroughout(s, turns, k)
    ensures Mutations(s, turns) == [] && Exec(s, turns).value.data == s.data
  {
    DataIsLastMutation(s, turns);
    if turns != [] {
      hide Step, Enabled, Inv;
      var before := turns[..|turns| - 1];
      assert forall j | 0 <= j <= |before| :: before[..j] == turns[..j];
      HeldDataIsStable(s, before, k);
      RunKeepsInv(s, before);
      assert before == turns[..|turns| - 1];
      ReaderKeepsWriterOut(Exec(s, before).value, k, turns[|turns| - 1].0);
    }
  }

  lemma ReaderKeepsWriterOut<T>(s: State<T>, k: nat, t: nat)
    requires Inv(s) && k < |s.pc| && t < |s.pc| && Reads(s.pc[k])
    ensures !s.pc[t].Mutates?
  {
    hide FlagOk, WakeupsOk, DataOk;
  }
}
