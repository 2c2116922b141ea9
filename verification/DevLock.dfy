/** The cooperative upgradable lock as a protocol of any number of threads. Every step of a thread is
    one atomic action on the flag mutex, the condition variable, the flag or the inner lock; a run
    interleaves the threads in any order. A thread has at most one guard. */
module DevLock {
  import opened Wrappers

  /** Where a thread is. `seen` is what the preparation closure saw. */
  datatype Pc<T> =
    | Idle
    // read()
    | ReadLocksFlag
    | ReadChecks
    | ReadParked
    | ReadWoken
    | ReadLocksInner
    | ReadReturns
    | Holding
    // try_writeable(): announce the wish to write
    | UpgradeLocksFlag
    | UpgradeLeavesInner
    | UpgradeChecks
    | UpgradeParked
    | UpgradeWoken
    | UpgradeUnlocksFlag
    | UpgradeRereads
    // prepare and mutate
    | Prepares
    | PreparedLeavesInner(seen: T)
    | AwaitsWrite(seen: T)
    | Mutates(seen: T)
    | MutatedRereads
    // take the wish back
    | ClearLocksFlag
    | Clears
    | Notifies
    | ClearUnlocksFlag
    // a closure panicked: unwinding drops the guards, and the flag is no guard
    | UnwindRereads
    | UnwindLeavesInner
    | Dead

  datatype State<T> = State(
    pc: seq<Pc<T>>,
    wantsWrite: bool,
    flagOwner: Option<nat>,
    readers: set<nat>,
    writer: Option<nat>,
    data: T)

  /** What the program around the lock decides: whether a holder upgrades or drops its guard, what the
      mutation closure leaves in the data, and whether a closure panics. */
  datatype Choice<T> = Choice(upgrade: bool, value: T, panics: bool)

  function New<T>(threads: nat, data: T): State<T> {
    State(seq(threads, _ => Idle), false, None, {}, None, data)
  }

  predicate OwnsFlag<T>(pc: Pc<T>) {
    pc.ReadChecks? || pc.ReadLocksInner? || pc.ReadReturns? || pc.UpgradeLeavesInner? || pc.UpgradeChecks?
    || pc.UpgradeUnlocksFlag? || pc.Clears? || pc.Notifies? || pc.ClearUnlocksFlag?
  }

  predicate Reads<T>(pc: Pc<T>) {
    pc.ReadReturns? || pc.Holding? || pc.UpgradeLocksFlag? || pc.UpgradeLeavesInner? || pc.Prepares?
    || pc.PreparedLeavesInner? || pc.ClearLocksFlag? || pc.Clears? || pc.Notifies? || pc.ClearUnlocksFlag?
    || pc.UnwindLeavesInner?
  }

  /** Between raising and clearing the flag, which a thread whose closure panicked never does. */
  predicate Raised<T>(pc: Pc<T>) {
    pc.UpgradeUnlocksFlag? || pc.UpgradeRereads? || pc.Prepares? || pc.PreparedLeavesInner? || pc.AwaitsWrite?
    || pc.Mutates? || pc.MutatedRereads? || pc.ClearLocksFlag? || pc.Clears?
    || Crashed(pc)
  }

  /** Owning the flag mutex with the flag down. */
  predicate SawFlagDown<T>(pc: Pc<T>) {
    pc.ReadLocksInner? || pc.ReadReturns? || pc.Notifies? || pc.ClearUnlocksFlag?
  }

  /** A thread whose closure panicked is unwinding or dead. */
  predicate Crashed<T>(pc: Pc<T>) {
    pc.UnwindRereads? || pc.UnwindLeavesInner? || pc.Dead?
  }

  predicate Parked<T>(pc: Pc<T>) {
    pc.ReadParked? || pc.UpgradeParked?
  }

  predicate LocksFlag<T>(pc: Pc<T>) {
    pc.ReadLocksFlag? || pc.ReadWoken? || pc.UpgradeLocksFlag? || pc.UpgradeWoken? || pc.ClearLocksFlag?
  }

  predicate LocksInner<T>(pc: Pc<T>) {
    pc.ReadLocksInner? || pc.UpgradeRereads? || pc.MutatedRereads? || pc.UnwindRereads?
  }

  /** Whether the thread's next action can happen. A parked thread moves only when it is
      notified, a dead one never. */
  predicate Enabled<T>(s: State<T>, t: nat)
    requires t < |s.pc|
  {
    var pc := s.pc[t];
    && !Parked(pc) && !pc.Dead?
    && (LocksFlag(pc) ==> s.flagOwner.None?)
    && (LocksInner(pc) ==> s.writer.None?)
    && (pc.AwaitsWrite? ==> s.writer.None? && s.readers == {})
  }

  function Woken<T>(pc: Pc<T>): Pc<T> {
    match pc
    case ReadParked => ReadWoken
    case UpgradeParked => UpgradeWoken
    case _ => pc
  }

  function WakeAll<T>(pcs: seq<Pc<T>>): seq<Pc<T>> {
    seq(|pcs|, i requires 0 <= i < |pcs| => Woken(pcs[i]))
  }

  function Step<T>(s: State<T>, t: nat, c: Choice<T>): State<T>
    requires t < |s.pc|
  {
    match s.pc[t]
    case Idle => s.(pc := s.pc[t := ReadLocksFlag])
    case ReadLocksFlag => s.(pc := s.pc[t := ReadChecks], flagOwner := Some(t))
    case ReadChecks =>
      if s.wantsWrite then s.(pc := s.pc[t := ReadParked], flagOwner := None)
      else s.(pc := s.pc[t := ReadLocksInner])
    case ReadParked => s
    case ReadWoken => s.(pc := s.pc[t := ReadChecks], flagOwner := Some(t))
    case ReadLocksInner => s.(pc := s.pc[t := ReadReturns], readers := s.readers + {t})
    case ReadReturns => s.(pc := s.pc[t := Holding], flagOwner := None)
    case Holding =>
      if c.upgrade then s.(pc := s.pc[t := UpgradeLocksFlag])
      else s.(pc := s.pc[t := Idle], readers := s.readers - {t})
    case UpgradeLocksFlag => s.(pc := s.pc[t := UpgradeLeavesInner], flagOwner := Some(t))
    case UpgradeLeavesInner => s.(pc := s.pc[t := UpgradeChecks], readers := s.readers - {t})
    case UpgradeChecks =>
      if s.wantsWrite then s.(pc := s.pc[t := UpgradeParked], flagOwner := None)
      else s.(pc := s.pc[t := UpgradeUnlocksFlag], wantsWrite := true)
    case UpgradeParked => s
    case UpgradeWoken => s.(pc := s.pc[t := UpgradeChecks], flagOwner := Some(t))
    case UpgradeUnlocksFlag => s.(pc := s.pc[t := UpgradeRereads], flagOwner := None)
    case UpgradeRereads => s.(pc := s.pc[t := Prepares], readers := s.readers + {t})
    case Prepares =>
      if c.panics then s.(pc := s.pc[t := Dead], readers := s.readers - {t})
      else s.(pc := s.pc[t := PreparedLeavesInner(s.data)])
    case PreparedLeavesInner(seen) => s.(pc := s.pc[t := AwaitsWrite(seen)], readers := s.readers - {t})
    case AwaitsWrite(seen) => s.(pc := s.pc[t := Mutates(seen)], writer := Some(t))
    case Mutates(_) =>
      s.(pc := s.pc[t := if c.panics then UnwindRereads else MutatedRereads], writer := None, data := c.value)
    case MutatedRereads => s.(pc := s.pc[t := ClearLocksFlag], readers := s.readers + {t})
    case ClearLocksFlag => s.(pc := s.pc[t := Clears], flagOwner := Some(t))
    case Clears => s.(pc := s.pc[t := Notifies], wantsWrite := false)
    case Notifies => s.(pc := WakeAll(s.pc)[t := ClearUnlocksFlag])
    case ClearUnlocksFlag => s.(pc := s.pc[t := Holding], flagOwner := None)
    case UnwindRereads => s.(pc := s.pc[t := UnwindLeavesInner], readers := s.readers + {t})
    case UnwindLeavesInner => s.(pc := s.pc[t := Dead], readers := s.readers - {t})
    case Dead => s
  }

  /** A run is a choice of threads, each of which can move when its turn comes. */
  function Exec<T>(s: State<T>, turns: seq<(nat, Choice<T>)>): Option<State<T>> {
    if turns == [] then Some(s)
    else
      var (t, c) := turns[|turns| - 1];
      match Exec(s, turns[..|turns| - 1])
      case None => None
      case Some(u) => if t < |u.pc| && Enabled(u, t) then Some(Step(u, t, c)) else None
  }

  // What every run keeps

  ghost predicate LocksOk<T>(s: State<T>) {
    && (s.flagOwner.Some? ==> s.flagOwner.value < |s.pc|)
    && (s.writer.Some? ==> s.writer.value < |s.pc| && s.readers == {})
    && (forall t: nat | t < |s.pc| :: s.flagOwner == Some(t) <==> OwnsFlag(s.pc[t]))
    && (forall t: nat | t < |s.pc| :: t in s.readers <==> Reads(s.pc[t]))
    && (forall t: nat | t < |s.pc| :: s.writer == Some(t) <==> s.pc[t].Mutates?)
    && (forall t | t in s.readers :: t < |s.pc|)
  }

  ghost predicate FlagOk<T>(s: State<T>) {
    && (forall t: nat, u: nat | t < u < |s.pc| :: !(Raised(s.pc[t]) && Raised(s.pc[u])))
    && (forall t: nat | t < |s.pc| && Raised(s.pc[t]) :: s.wantsWrite)
    && (s.wantsWrite ==> exists t: nat :: t < |s.pc| && Raised(s.pc[t]))
    && (forall t: nat | t < |s.pc| && SawFlagDown(s.pc[t]) :: !s.wantsWrite)
  }

  ghost predicate WakeupsOk<T>(s: State<T>) {
    forall t: nat | t < |s.pc| && Parked(s.pc[t]) :: WokenSoon(s)
  }

  /** Somebody has raised the flag, or is about to notify. */
  predicate WokenSoon<T>(s: State<T>) {
    s.wantsWrite || (s.flagOwner.Some? && s.flagOwner.value < |s.pc| && s.pc[s.flagOwner.value].Notifies?)
  }

  ghost predicate SeesData<T>(pc: Pc<T>, data: T) {
    pc.PreparedLeavesInner? || pc.AwaitsWrite? || pc.Mutates? ==> pc.seen == data
  }

  ghost predicate DataOk<T>(s: State<T>) {
    forall t: nat | t < |s.pc| :: SeesData(s.pc[t], s.data)
  }

  ghost predicate Inv<T>(s: State<T>) {
    LocksOk(s) && FlagOk(s) && WakeupsOk(s) && DataOk(s)
  }

  /** Two places that mean the same for all locks. */
  predicate Alike<T>(p: Pc<T>, q: Pc<T>) {
    && OwnsFlag(p) == OwnsFlag(q) && Reads(p) == Reads(q) && Raised(p) == Raised(q)
    && p.Mutates? == q.Mutates? && SawFlagDown(p) == SawFlagDown(q) && Crashed(p) == Crashed(q)
  }

  lemma OthersStayAlike<T>(s: State<T>, t: nat, c: Choice<T>)
    requires t < |s.pc|
    ensures |Step(s, t, c).pc| == |s.pc|
    ensures forall k: nat | k < |s.pc| && k != t :: Alike(Step(s, t, c).pc[k], s.pc[k])
  {
    var u := Step(s, t, c);
    assert forall k: nat | k < |s.pc| && k != t :: u.pc[k] == s.pc[k] || u.pc[k] == Woken(s.pc[k]);
  }

  /** The locks as the thread t sees them. */
  predicate LocksAt<T>(s: State<T>, t: nat)
    requires t < |s.pc|
  {
    && (s.flagOwner == Some(t) <==> OwnsFlag(s.pc[t]))
    && (t in s.readers <==> Reads(s.pc[t]))
    && (s.writer == Some(t) <==> s.pc[t].Mutates?)
    && (s.writer.Some? ==> s.readers == {})
  }

  /** A step moves its thread, and no other, into or out of the readers. */
  lemma StepMovesReaders<T>(s: State<T>, t: nat, c: Choice<T>)
    requires t < |s.pc| && LocksAt(s, t) && Enabled(s, t)
    ensures var u := Step(s, t, c);
            && t < |u.pc|
            && u.readers == (if Reads(u.pc[t]) then s.readers + {t} else s.readers - {t})
            && (Reads(u.pc[t]) && !Reads(s.pc[t]) ==> s.writer.None? || s.writer == Some(t))
  {
  }

  lemma StepMovesOwner<T>(s: State<T>, t: nat, c: Choice<T>)
    requires t < |s.pc| && LocksAt(s, t) && Enabled(s, t)
    ensures var u := Step(s, t, c);
            && t < |u.pc|
            && u.flagOwner == (if OwnsFlag(u.pc[t]) then Some(t) else if OwnsFlag(s.pc[t]) then None else s.flagOwner)
            && (OwnsFlag(u.pc[t]) ==> s.flagOwner.None? || s.flagOwner == Some(t))
  {
  }

  lemma StepMovesWriter<T>(s: State<T>, t: nat, c: Choice<T>)
    requires t < |s.pc| && LocksAt(s, t) && Enabled(s, t)
    ensures var u := Step(s, t, c);
            && t < |u.pc|
            && u.writer == (if u.pc[t].Mutates? then Some(t) else if s.pc[t].Mutates? then None else s.writer)
            && (u.pc[t].Mutates? ==> u.readers == {} && s.writer.None?)
            && (u.writer.Some? && s.writer.Some? ==> u.readers == {})
  {
  }

  lemma StepKeepsLocks<T>(s: State<T>, t: nat, c: Choice<T>)
    requires t < |s.pc| && LocksOk(s) && Enabled(s, t)
    ensures LocksOk(Step(s, t, c))
  {
    hide Step, Enabled, OwnsFlag, Reads, Raised;
    OthersStayAlike(s, t, c);
    StepMovesReaders(s, t, c);
    StepMovesOwner(s, t, c);
    StepMovesWriter(s, t, c);
    var u := Step(s, t, c);
    forall k: nat | k < |u.pc|
      ensures u.flagOwner == Some(k) <==> OwnsFlag(u.pc[k])
      ensures k in u.readers <==> Reads(u.pc[k])
      ensures u.writer == Some(k) <==> u.pc[k].Mutates?
    {
      if k != t {
        assert Alike(u.pc[k], s.pc[k]);
      }
    }
  }

  /** The flag as the thread t sees it. */
  predicate FlagAt<T>(s: State<T>, t: nat)
    requires t < |s.pc|
  {
    && (Raised(s.pc[t]) ==> s.wantsWrite)
    && (SawFlagDown(s.pc[t]) ==> !s.wantsWrite)
  }

  /** Only the owner of the flag mutex changes the flag, and only at the ends of the raised stretch. */
  lemma StepMovesFlag<T>(s: State<T>, t: nat, c: Choice<T>)
    requires t < |s.pc| && FlagAt(s, t) && Enabled(s, t)
    ensures var u := Step(s, t, c);
            && t < |u.pc|
            && (u.wantsWrite != s.wantsWrite ==>
                  OwnsFlag(s.pc[t]) && Raised(u.pc[t]) == u.wantsWrite && Raised(s.pc[t]) == s.wantsWrite)
  {
  }

  lemma StepKeepsRaised<T>(s: State<T>, t: nat, c: Choice<T>)
    requires t < |s.pc| && FlagAt(s, t)
    ensures var u := Step(s, t, c);
            t < |u.pc| && (u.wantsWrite == s.wantsWrite ==> Raised(u.pc[t]) == Raised(s.pc[t]))
  {
  }

  lemma StepReadsFlag<T>(s: State<T>, t: nat, c: Choice<T>)
    requires t < |s.pc| && FlagAt(s, t) && Enabled(s, t)
    ensures var u := Step(s, t, c);
            t < |u.pc| && (SawFlagDown(u.pc[t]) ==> !u.wantsWrite && OwnsFlag(s.pc[t]))
  {
  }

  lemma StepKeepsFlag<T>(s: State<T>, t: nat, c: Choice<T>)
    requires t < |s.pc| && LocksOk(s) && FlagOk(s) && Enabled(s, t)
    ensures FlagOk(Step(s, t, c))
  {
    hide Step, Enabled, OwnsFlag, Reads, Raised, SawFlagDown;
    OthersStayAlike(s, t, c);
    StepMovesFlag(s, t, c);
    StepKeepsRaised(s, t, c);
    StepReadsFlag(s, t, c);
    FlagSeersOwnFlag(s);
    var u := Step(s, t, c);
    forall j: nat, k: nat | j < k < |u.pc|
      ensures !(Raised(u.pc[j]) && Raised(u.pc[k]))
    {
      assert j == t || Alike(u.pc[j], s.pc[j]);
      assert k == t || Alike(u.pc[k], s.pc[k]);
    }
    forall k: nat | k < |u.pc|
      ensures Raised(u.pc[k]) ==> u.wantsWrite
      ensures SawFlagDown(u.pc[k]) ==> !u.wantsWrite
    {
      assert k == t || Alike(u.pc[k], s.pc[k]);
    }
    if u.wantsWrite && s.wantsWrite {
      var k: nat :| k < |s.pc| && Raised(s.pc[k]);
      assert k == t || Alike(u.pc[k], s.pc[k]);
      assert Raised(u.pc[k]);
    }
  }

  lemma FlagSeersOwnFlag<T>(s: State<T>)
    ensures forall k: nat | k < |s.pc| && SawFlagDown(s.pc[k]) :: OwnsFlag(s.pc[k])
  {
  }

  lemma StepKeepsWakeups<T>(s: State<T>, t: nat, c: Choice<T>)
    requires t < |s.pc| && LocksOk(s) && WakeupsOk(s) && Enabled(s, t)
    ensures WakeupsOk(Step(s, t, c))
  {
    hide Step, Enabled, OwnsFlag, Reads, Raised;
    var u := Step(s, t, c);
    OthersStayAlike(s, t, c);
    forall k: nat | k < |u.pc| && Parked(u.pc[k])
      ensures WokenSoon(u)
    {
      ParkedWasParked(s, t, c, k);
      WakeupStays(s, t, c);
    }
  }

  /** Who is parked after a step was so before, or has just seen the flag up. */
  lemma ParkedWasParked<T>(s: State<T>, t: nat, c: Choice<T>, k: nat)
    requires t < |s.pc| && k < |s.pc| && |Step(s, t, c).pc| == |s.pc| && Enabled(s, t)
    requires Parked(Step(s, t, c).pc[k])
    ensures (k != t && Parked(s.pc[k])) || (k == t && s.wantsWrite)
    ensures !s.pc[t].Notifies?
  {
  }

  lemma WakeupStays<T>(s: State<T>, t: nat, c: Choice<T>)
    requires t < |s.pc| && LocksOk(s) && Enabled(s, t) && !s.pc[t].Notifies? && WokenSoon(s)
    ensures WokenSoon(Step(s, t, c))
  {
    assert LocksAt(s, t);
    hide LocksOk, Reads;
  }

  lemma StepKeepsData<T>(s: State<T>, t: nat, c: Choice<T>)
    requires t < |s.pc| && FlagOk(s) && DataOk(s) && Enabled(s, t)
    ensures DataOk(Step(s, t, c))
  {
    hide Step, Enabled, Raised, SeesData;
    var u := Step(s, t, c);
    OthersStayAlike(s, t, c);
    forall k: nat | k < |s.pc|
      ensures SeesData(u.pc[k], u.data)
    {
      assert SeesData(s.pc[k], s.data);
      if k == t {
        OwnDataStays(s, t, c);
      } else {
        assert !(Raised(s.pc[k]) && Raised(s.pc[t]));
        DataStays(s, t, c, k);
      }
    }
  }

  lemma OwnDataStays<T>(s: State<T>, t: nat, c: Choice<T>)
    requires t < |s.pc| && SeesData(s.pc[t], s.data)
    ensures t < |Step(s, t, c).pc| && SeesData(Step(s, t, c).pc[t], Step(s, t, c).data)
  {
  }

  lemma DataStays<T>(s: State<T>, t: nat, c: Choice<T>, k: nat)
    requires t < |s.pc| && k < |s.pc| && k != t && SeesData(s.pc[k], s.data)
    requires !(Raised(s.pc[k]) && Raised(s.pc[t]))
    ensures k < |Step(s, t, c).pc| && SeesData(Step(s, t, c).pc[k], Step(s, t, c).data)
  {
    assert Step(s, t, c).pc[k] == s.pc[k] || Step(s, t, c).pc[k] == Woken(s.pc[k]);
  }

  lemma NewIsOk<T>(threads: nat, data: T)
    ensures Inv(New(threads, data))
  {
  }

  lemma StepKeepsInv<T>(s: State<T>, t: nat, c: Choice<T>)
    requires t < |s.pc| && Inv(s) && Enabled(s, t)
    ensures Inv(Step(s, t, c))
  {
    hide Step, Enabled, LocksOk, FlagOk, WakeupsOk, DataOk;
    StepKeepsLocks(s, t, c);
    StepKeepsFlag(s, t, c);
    StepKeepsWakeups(s, t, c);
    StepKeepsData(s, t, c);
  }

  lemma {:induction false} RunKeepsInv<T>(s: State<T>, turns: seq<(nat, Choice<T>)>)
    requires Inv(s) && Exec(s, turns).Some?
    ensures Inv(Exec(s, turns).value)
  {
    if turns != [] {
      hide Step, Enabled, Inv;
      var before := turns[..|turns| - 1];
      RunKeepsInv(s, before);
      StepKeepsInv(Exec(s, before).value, turns[|turns| - 1].0, turns[|turns| - 1].1);
    }
  }

  // What a run guarantees

  /** In every reachable state: at most one thread is between raising and clearing the flag, and the
      flag is up exactly if there is one, dead or alive; no read() is about to return while it is up;
      a thread in the mutation closure is alone on the inner lock and starts from what its preparation
      closure saw; nobody is parked with the flag down, except while it is being announced. */
  lemma RunsAreSafe<T>(threads: nat, data: T, turns: seq<(nat, Choice<T>)>)
    requires Exec(New(threads, data), turns).Some?
    ensures var s := Exec(New(threads, data), turns).value;
            && (forall t: nat, u: nat | t < u < |s.pc| :: !(Raised(s.pc[t]) && Raised(s.pc[u])))
            && (s.wantsWrite <==> exists t: nat :: t < |s.pc| && Raised(s.pc[t]))
            && (forall t: nat | t < |s.pc| && s.pc[t].ReadReturns? :: !s.wantsWrite)
            && (forall t: nat | t < |s.pc| && s.pc[t].Mutates? ::
                  s.readers == {} && s.writer == Some(t) && s.pc[t].seen == s.data)
            && (forall t: nat | t < |s.pc| && Parked(s.pc[t]) ::
                  s.wantsWrite || (exists u: nat :: u < |s.pc| && s.pc[u].Notifies?))
  {
    hide Exec;
    NewIsOk(threads, data);
    RunKeepsInv(New(threads, data), turns);
    var s := Exec(New(threads, data), turns).value;
    forall t: nat | t < |s.pc| && s.pc[t].Mutates?
      ensures s.readers == {} && s.writer == Some(t) && s.pc[t].seen == s.data
    {
      assert SeesData(s.pc[t], s.data);
    }
  }

  /** A lock that prefers writers makes a new reader wait for a writer that is only waiting. */
  predicate AdmitsReader<T>(s: State<T>) {
    s.writer.None? && forall t: nat | t < |s.pc| :: !s.pc[t].AwaitsWrite?
  }

  /** No read lock is ever waited for: wherever a thread takes one, even a lock that prefers writers
      grants it. So nobody blocks on the inner lock while owning the flag mutex, and of all threads
      only the one that raised the flag can block on the inner lock at all. */
  lemma ReadersNeverBlock<T>(threads: nat, data: T, turns: seq<(nat, Choice<T>)>, t: nat)
    requires Exec(New(threads, data), turns).Some?
    requires var s := Exec(New(threads, data), turns).value; t < |s.pc| && LocksInner(s.pc[t])
    ensures AdmitsReader(Exec(New(threads, data), turns).value)
  {
    hide Exec;
    NewIsOk(threads, data);
    RunKeepsInv(New(threads, data), turns);
  }

  /** In the middle of an operation, as opposed to holding a guard or not, or dead. */
  predicate Busy<T>(pc: Pc<T>) {
    !pc.Idle? && !pc.Holding? && !pc.Dead?
  }

  ghost predicate SomeoneMoves<T>(s: State<T>) {
    exists t: nat :: t < |s.pc| && Busy(s.pc[t]) && Enabled(s, t)
  }

  ghost predicate WriterAwaitsHolders<T>(s: State<T>) {
    && s.readers != {}
    && (exists w: nat :: w < |s.pc| && s.pc[w].AwaitsWrite?)
    && forall t | t in s.readers :: t < |s.pc| && s.pc[t].Holding?
  }

  /** Some operation is under way, none can go on, and it is not that a writer waits for guards that
      their holders have only to drop or upgrade. */
  ghost predicate Deadlocked<T>(s: State<T>) {
    && (exists t: nat :: t < |s.pc| && Busy(s.pc[t]))
    && !SomeoneMoves(s) && !WriterAwaitsHolders(s)
  }

  ghost predicate SomeoneDied<T>(s: State<T>) {
    exists t: nat :: t < |s.pc| && s.pc[t].Dead?
  }

  /** The run's k-th turn is that of a closure, and it panics. */
  predicate Panics<T>(s: State<T>, turn: (nat, Choice<T>)) {
    turn.0 < |s.pc| && (s.pc[turn.0].Prepares? || s.pc[turn.0].Mutates?) && turn.1.panics
  }

  /** Some closure of the run panicked. */
  ghost predicate Panicked<T>(s: State<T>, turns: seq<(nat, Choice<T>)>) {
    exists k :: 0 <= k < |turns| && Exec(s, turns[..k]).Some? && Panics(Exec(s, turns[..k]).value, turns[k])
  }

  ghost predicate SomeoneCrashed<T>(s: State<T>) {
    exists t: nat :: t < |s.pc| && Crashed(s.pc[t])
  }

  lemma CrashedIff<T>(s: State<T>, t: nat, c: Choice<T>)
    requires t < |s.pc| && Enabled(s, t)
    ensures SomeoneCrashed(Step(s, t, c)) <==> SomeoneCrashed(s) || Panics(s, (t, c))
  {
    hide Step, Enabled, Panics, Crashed, OwnsFlag, Reads, Raised, SawFlagDown;
    OthersStayAlike(s, t, c);
    OwnCrash(s, t, c);
    var u := Step(s, t, c);
    if k: nat :| k < |s.pc| && Crashed(s.pc[k]) {
      assert k == t || Alike(u.pc[k], s.pc[k]);
      assert Crashed(u.pc[k]);
    }
    if k: nat :| k < |u.pc| && Crashed(u.pc[k]) {
      assert k == t || Alike(u.pc[k], s.pc[k]);
    }
  }

  lemma OwnCrash<T>(s: State<T>, t: nat, c: Choice<T>)
    requires t < |s.pc| && Enabled(s, t)
    ensures t < |Step(s, t, c).pc| && (Crashed(Step(s, t, c).pc[t]) <==> Crashed(s.pc[t]) || Panics(s, (t, c)))
  {
  }

  /** Somebody has crashed exactly if a closure of the run panicked. */
  lemma {:induction false} CrashedIffPanicked<T>(s: State<T>, turns: seq<(nat, Choice<T>)>)
    requires !SomeoneCrashed(s) && Exec(s, turns).Some?
    ensures SomeoneCrashed(Exec(s, turns).value) <==> Panicked(s, turns)
  {
    if turns != [] {
      hide Step, Enabled, SomeoneCrashed, Panics;
      var before := turns[..|turns| - 1];
      CrashedIffPanicked(s, before);
      CrashedIff(Exec(s, before).value, turns[|turns| - 1].0, turns[|turns| - 1].1);
      assert forall k | 0 <= k < |before| :: turns[..k] == before[..k] && turns[k] == before[k];
    }
  }

  /** In every reachable state nobody can go on exactly if a closure of the run panicked, its thread
      is dead, and everybody else in the middle of an operation is parked. In particular no run
      without a panic deadlocks. */
  lemma DeadlockIff<T>(threads: nat, data: T, turns: seq<(nat, Choice<T>)>)
    requires Exec(New(threads, data), turns).Some?
    ensures var s := Exec(New(threads, data), turns).value;
            Deadlocked(s) <==> && Panicked(New(threads, data), turns) && SomeoneDied(s)
                               && (exists t: nat :: t < |s.pc| && Parked(s.pc[t]))
                               && (forall t: nat | t < |s.pc| && Busy(s.pc[t]) :: Parked(s.pc[t]))
  {
    hide Exec, Panicked;
    NewIsOk(threads, data);
    assert !SomeoneCrashed(New(threads, data));
    RunKeepsInv(New(threads, data), turns);
    CrashedIffPanicked(New(threads, data), turns);
    var s := Exec(New(threads, data), turns).value;
    if Deadlocked(s) {
      DeadlockedIsDead(s);
    }
    if d: nat :| d < |s.pc| && s.pc[d].Dead? {
      assert Crashed(s.pc[d]);
      NobodyAwaitsWrite(s, d);
    }
  }

  lemma NobodyAwaitsWrite<T>(s: State<T>, d: nat)
    requires FlagOk(s) && d < |s.pc| && s.pc[d].Dead?
    ensures !WriterAwaitsHolders(s)
  {
    if w: nat :| w < |s.pc| && s.pc[w].AwaitsWrite? {
      assert Raised(s.pc[w]) && Raised(s.pc[d]);
    }
  }

  lemma DeadlockedIsDead<T>(s: State<T>)
    requires Inv(s) && Deadlocked(s)
    ensures SomeoneDied(s)
    ensures forall t: nat | t < |s.pc| && Busy(s.pc[t]) :: Parked(s.pc[t])
  {
    if s.flagOwner.Some? {
      assert Busy(s.pc[s.flagOwner.value]) && Enabled(s, s.flagOwner.value);
    }
    var t: nat :| t < |s.pc| && Busy(s.pc[t]);
    if !s.wantsWrite {
      assert !Parked(s.pc[t]) && !Raised(s.pc[t]);
      assert Enabled(s, t);
    }
    var w: nat :| w < |s.pc| && Raised(s.pc[w]);
    RaisedMoves(s, w);
    forall k: nat | k < |s.pc| && Busy(s.pc[k])
      ensures Parked(s.pc[k])
    {
      assert k == w || !Raised(s.pc[k]);
      assert !Enabled(s, k);
    }
  }

  /** The thread that raised the flag can go on, or waits for others that can, unless it is dead. */
  lemma RaisedMoves<T>(s: State<T>, w: nat)
    requires Inv(s) && s.flagOwner.None? && w < |s.pc| && Raised(s.pc[w])
    ensures s.pc[w].Dead? || SomeoneMoves(s) || WriterAwaitsHolders(s)
  {
    if !s.pc[w].Dead? && !Enabled(s, w) && !WriterAwaitsHolders(s) {
      assert s.pc[w].AwaitsWrite?;
      var r :| r in s.readers && !s.pc[r].Holding?;
      assert Reads(s.pc[r]) && !Raised(s.pc[r]);
      assert s.pc[r].UpgradeLocksFlag? && Enabled(s, r);
    }
  }

  // After a panic

  /** How many turns a thread has left once the flag stays up. */
  function TurnsLeft<T>(pc: Pc<T>): nat {
    match pc
    case Holding => 4
    case Idle => 3
    case UpgradeLocksFlag => 3
    case ReadLocksFlag => 2
    case UpgradeLeavesInner => 2
    case ReadWoken => 2
    case UpgradeWoken => 2
    case UnwindRereads => 2
    case ReadChecks => 1
    case UpgradeChecks => 1
    case UnwindLeavesInner => 1
    case _ => 0
  }

  function AllTurnsLeft<T>(pcs: seq<Pc<T>>): (n: nat)
    ensures n <= 4 * |pcs|
  {
    if pcs == [] then 0 else AllTurnsLeft(pcs[..|pcs| - 1]) + TurnsLeft(pcs[|pcs| - 1])
  }

  lemma {:induction false} TurnsLeftAfter<T>(pcs: seq<Pc<T>>, t: nat, pc: Pc<T>)
    requires t < |pcs|
    ensures AllTurnsLeft(pcs[t := pc]) == AllTurnsLeft(pcs) - TurnsLeft(pcs[t]) + TurnsLeft(pc)
  {
    hide TurnsLeft;
    var last := |pcs| - 1;
    if t == last {
      assert pcs[t := pc][..last] == pcs[..last];
    } else {
      TurnsLeftAfter(pcs[..last], t, pc);
      assert pcs[t := pc][..last] == pcs[..last][t := pc];
    }
  }

  /** Each turn uses one up; the flag stays up, the data stays, the crashed thread stays crashed. */
  lemma TurnAfterPanic<T>(s: State<T>, d: nat, t: nat, c: Choice<T>)
    requires Inv(s) && d < |s.pc| && Crashed(s.pc[d]) && t < |s.pc| && Enabled(s, t)
    ensures var u := Step(s, t, c);
            && |u.pc| == |s.pc| && Crashed(u.pc[d]) && u.wantsWrite && u.data == s.data
            && AllTurnsLeft(u.pc) < AllTurnsLeft(s.pc)
  {
    hide Step, Enabled, TurnsLeft, AllTurnsLeft;
    CrashedStandsAlone(s, d);
    TurnWithFlagUp(s, t, c);
    var u := Step(s, t, c);
    TurnsLeftAfter(s.pc, t, u.pc[t]);
  }

  lemma TurnWithFlagUp<T>(s: State<T>, t: nat, c: Choice<T>)
    requires t < |s.pc| && Enabled(s, t) && s.wantsWrite
    requires !SawFlagDown(s.pc[t]) && (Raised(s.pc[t]) ==> Crashed(s.pc[t]))
    ensures var u := Step(s, t, c);
            && |u.pc| == |s.pc| && u.pc == s.pc[t := u.pc[t]] && u.wantsWrite && u.data == s.data
            && TurnsLeft(u.pc[t]) < TurnsLeft(s.pc[t]) && (Crashed(s.pc[t]) ==> Crashed(u.pc[t]))
  {
  }

  /** Only the crashed thread is between raising and clearing the flag. */
  lemma CrashedStandsAlone<T>(s: State<T>, d: nat)
    requires Inv(s) && d < |s.pc| && Crashed(s.pc[d])
    ensures s.wantsWrite && s.writer.None? && s.flagOwner != Some(d)
    ensures forall t: nat | t < |s.pc| :: !SawFlagDown(s.pc[t]) && (Raised(s.pc[t]) ==> t == d)
  {
    assert Raised(s.pc[d]);
    forall t: nat | t < |s.pc| && t != d
      ensures !Raised(s.pc[t])
    {
      assert t < d || d < t;
    }
  }

  /** After a panic every run comes to an end: the threads have at most four turns each left. All the
      while the flag is up, no read() returns, nobody reaches a closure, and the data stays as the
      closure left it. The run can go no further exactly when everybody is parked for good but for
      the one thread that is dead. */
  lemma {:induction false} PanicStopsEverybody<T>(s: State<T>, d: nat, turns: seq<(nat, Choice<T>)>)
    requires Inv(s) && d < |s.pc| && Crashed(s.pc[d]) && Exec(s, turns).Some?
    ensures var u := Exec(s, turns).value;
            && |turns| + AllTurnsLeft(u.pc) <= AllTurnsLeft(s.pc) <= 4 * |s.pc| == 4 * |u.pc|
            && Inv(u) && Crashed(u.pc[d]) && u.wantsWrite && u.data == s.data
            && (forall t: nat | t < |u.pc| :: !u.pc[t].ReadReturns? && !u.pc[t].Prepares? && !u.pc[t].Mutates?)
            && ((forall t: nat | t < |u.pc| :: !Enabled(u, t))
                <==> u.pc[d].Dead? && forall t: nat | t < |u.pc| && t != d :: Parked(u.pc[t]))
  {
    hide Step, Enabled, TurnsLeft, LocksOk, FlagOk, WakeupsOk, DataOk, AllTurnsLeft, Crashed;
    if turns != [] {
      var before := turns[..|turns| - 1];
      PanicStopsEverybody(s, d, before);
      var u := Exec(s, before).value;
      var (t, c) := turns[|turns| - 1];
      RunKeepsInv(s, turns);
      TurnAfterPanic(u, d, t, c);
    }
    CrashedStandstill(Exec(s, turns).value, d);
  }

  lemma CrashedStandstill<T>(s: State<T>, d: nat)
    requires Inv(s) && d < |s.pc| && Crashed(s.pc[d])
    ensures s.wantsWrite
    ensures forall t: nat | t < |s.pc| :: !s.pc[t].ReadReturns? && !s.pc[t].Prepares? && !s.pc[t].Mutates?
    ensures (forall t: nat | t < |s.pc| :: !Enabled(s, t))
       <==> s.pc[d].Dead? && forall t: nat | t < |s.pc| && t != d :: Parked(s.pc[t])
  {
    CrashedStandsAlone(s, d);
    if s.flagOwner.Some? {
      assert OwnsFlag(s.pc[s.flagOwner.value]) && Enabled(s, s.flagOwner.value);
    }
    if forall t: nat | t < |s.pc| :: !Enabled(s, t) {
      assert s.flagOwner.None? && !Enabled(s, d);
      hide LocksOk, FlagOk, WakeupsOk, DataOk;
      forall t: nat | t < |s.pc| && t != d
        ensures Parked(s.pc[t])
      {
        assert !Raised(s.pc[t]) && !SawFlagDown(s.pc[t]) && !Enabled(s, t);
      }
    }
  }

  // A run that stops

  /** The first of two threads panics in its mutation closure, and then the second tries to read. */
  function Turn(n: nat): (nat, Choice<int>) {
    (if n < 17 then 0 else 1, Choice(true, 0, n == 14))
  }

  function FirstTurns(n: nat): seq<(nat, Choice<int>)> {
    seq(n, k requires 0 <= k < n => Turn(k))
  }

  function After(n: nat): State<int> {
    match n
    case 0 => State([Idle, Idle], false, None, {}, None, 0)
    case 1 => State([ReadLocksFlag, Idle], false, None, {}, None, 0)
    case 2 => State([ReadChecks, Idle], false, Some(0), {}, None, 0)
    case 3 => State([ReadLocksInner, Idle], false, Some(0), {}, None, 0)
    case 4 => State([ReadReturns, Idle], false, Some(0), {0}, None, 0)
    case 5 => State([Holding, Idle], false, None, {0}, None, 0)
    case 6 => State([UpgradeLocksFlag, Idle], false, None, {0}, None, 0)
    case 7 => State([UpgradeLeavesInner, Idle], false, Some(0), {0}, None, 0)
    case 8 => State([UpgradeChecks, Idle], false, Some(0), {}, None, 0)
    case 9 => State([UpgradeUnlocksFlag, Idle], true, Some(0), {}, None, 0)
    case 10 => State([UpgradeRereads, Idle], true, None, {}, None, 0)
    case 11 => State([Prepares, Idle], true, None, {0}, None, 0)
    case 12 => State([PreparedLeavesInner(0), Idle], true, None, {0}, None, 0)
    case 13 => State([AwaitsWrite(0), Idle], true, None, {}, None, 0)
    case 14 => State([Mutates(0), Idle], true, None, {}, Some(0), 0)
    case 15 => State([UnwindRereads, Idle], true, None, {}, None, 0)
    case 16 => State([UnwindLeavesInner, Idle], true, None, {0}, None, 0)
    case 17 => State([Dead, Idle], true, None, {}, None, 0)
    case 18 => State([Dead, ReadLocksFlag], true, None, {}, None, 0)
    case 19 => State([Dead, ReadChecks], true, Some(1), {}, None, 0)
    case _ => State([Dead, ReadParked], true, None, {}, None, 0)
  }

  lemma OneMoreTurn(n: nat)
    requires n < 20
    ensures Enabled(After(n), Turn(n).0) && Step(After(n), Turn(n).0, Turn(n).1) == After(n + 1)
  {
    if n < 5 {
      FirstReads(n);
    } else if n < 11 {
      FirstUpgrades(n);
    } else if n < 17 {
      FirstPanics(n);
    } else {
      SecondParks(n);
    }
  }

  lemma FirstReads(n: nat)
    requires n < 5
    ensures Enabled(After(n), 0) && Step(After(n), 0, Turn(n).1) == After(n + 1)
  {
  }

  lemma FirstUpgrades(n: nat)
    requires 5 <= n < 11
    ensures Enabled(After(n), 0) && Step(After(n), 0, Turn(n).1) == After(n + 1)
  {
  }

  lemma FirstPanics(n: nat)
    requires 11 <= n < 17
    ensures Enabled(After(n), 0) && Step(After(n), 0, Turn(n).1) == After(n + 1)
  {
  }

  lemma SecondParks(n: nat)
    requires 17 <= n < 20
    ensures Enabled(After(n), 1) && Step(After(n), 1, Turn(n).1) == After(n + 1)
  {
  }

  lemma {:induction false} FirstTurnsLead(n: nat)
    requires n <= 20
    ensures Exec(New(2, 0), FirstTurns(n)) == Some(After(n))
  {
    if n == 0 {
      assert New(2, 0) == After(0);
    } else {
      hide Step, Enabled, After;
      FirstTurnsLead(n - 1);
      assert FirstTurns(n)[..n - 1] == FirstTurns(n - 1);
      OneMoreTurn(n - 1);
      TwoThreads(n - 1);
    }
  }

  lemma TwoThreads(n: nat)
    requires n <= 20
    ensures |After(n).pc| == 2
  {
  }

  /** Two threads, twenty turns: the first panics in its mutation closure, and the second parks for
      good. */
  lemma PanicDeadlocks()
    ensures exists turns: seq<(nat, Choice<int>)> :: && Exec(New(2, 0), turns).Some?
                                               && Exec(New(2, 0), turns).value.pc == [Dead, ReadParked]
                                               && Deadlocked(Exec(New(2, 0), turns).value)
  {
    hide Exec;
    FirstTurnsLead(20);
    var s := After(20);
    assert Busy(s.pc[1]);
    assert Exec(New(2, 0), FirstTurns(20)).Some?;
  }
}
