/** Bits of a 64-bit word. */
module WordBits {

  predicate Bit(w: bv64, b: bv6) {
    (w >> b) & 1 == 1
  }

  function WithBit(w: bv64, b: bv6): bv64 {
    w | (1 << b)
  }

  function WithoutBit(w: bv64, b: bv6): bv64 {
    w & !(1 << b)
  }

  lemma BitsOfWithBit(w: bv64, b: bv6, k: bv6)
    ensures Bit(WithBit(w, b), k) == (k == b || Bit(w, k))
  {
  }

  lemma ClearedBit(w: bv64, b: bv6)
    ensures !Bit(WithoutBit(w, b), b)
  {
  }

  lemma BitsOfWithoutBit(w: bv64, b: bv6, k: bv6)
    ensures Bit(WithoutBit(w, b), k) == (k != b && Bit(w, k))
  {
    if k == b {
      ClearedBit(w, b);
    }
  }

  lemma ZeroWord(k: bv6)
    ensures !Bit(0, k)
  {
  }

  /** A bit position as a shift amount. */
  function Amount(n: nat): (b: bv6)
    requires n < 64
    ensures b as int == n
  {
    n as bv6
  }
}

/** The abstract replay window: the highest counter seen plus one, and the set of all counters
    ever accepted. It never forgets and never aliases. */
module ReplayWindow {
  import opened Wrappers

  const N_BITS: nat := 1024
  const LAST_COUNTER: u64 := 0xffff_ffff_ffff_ffff

  datatype Window = Window(next: u64, marked: set<nat>)

  const EMPTY := Window(0, {})

  ghost predicate WellFormed(w: Window) {
    forall c <- w.marked :: c < w.next
  }

  /** What the protocol promises: new, or recent and not yet received. */
  predicate Fresh(w: Window, c: nat) {
    c >= w.next || (c + N_BITS >= w.next && c !in w.marked)
  }

  /** Adding N_BITS to the counter wraps around. */
  predicate Wraps(c: u64) {
    c + N_BITS >= U64_SIZE
  }

  function WillAccept(w: Window, c: u64): Result<Unit> {
    if c >= w.next then Ok(Unit)
    else if (c + N_BITS) % U64_SIZE < w.next then Err(InvalidCounter)
    else if c in w.marked then Err(DuplicateCounter)
    else Ok(Unit)
  }

  function Mark(w: Window, c: u64): (Result<Unit>, Window) {
    if (c + N_BITS) % U64_SIZE < w.next then (Err(InvalidCounter), w)
    else if c < w.next && c in w.marked then (Err(InvalidCounter), w)
    else (Ok(Unit), Window(if c < w.next then w.next else (c + 1) % U64_SIZE, w.marked + {c}))
  }

  /** Away from the wrap-around both checks decide freshness exactly. */
  lemma ChecksDecideFreshness(w: Window, c: u64)
    requires WellFormed(w)
    ensures !Wraps(c) ==> (WillAccept(w, c).Ok? <==> Fresh(w, c))
    ensures !Wraps(c) ==> (Mark(w, c).0.Ok? <==> Fresh(w, c))
  {
  }

  /** Fresh, and not lost to the wrap-around. */
  predicate Passes(w: Window, c: u64) {
    Fresh(w, c) && (!Wraps(c) || w.next <= c + N_BITS - U64_SIZE)
  }

  /** What exactly passes: marking alone decides it, and the check before it refuses nothing more. */
  lemma PassesIff(w: Window, c: u64)
    requires WellFormed(w)
    ensures Mark(w, c).0.Ok? <==> Passes(w, c)
    ensures Passes(w, c) ==> WillAccept(w, c).Ok?
  {
  }

  /** With the wrap-around, marking decides freshness exactly when the wrapped sum is not below
      `next`, or the counter was stale anyway. */
  lemma MarkDecidesFreshnessIff(w: Window, c: u64)
    requires WellFormed(w)
    ensures (Mark(w, c).0.Ok? <==> Fresh(w, c))
       <==> (!Wraps(c) || w.next <= c + N_BITS - U64_SIZE || (c < w.next && c in w.marked))
  {
  }

  /** The check before decryption loses fewer: only counters below `next`. */
  lemma CheckDecidesFreshnessIff(w: Window, c: u64)
    requires WellFormed(w)
    ensures (WillAccept(w, c).Ok? <==> Fresh(w, c))
       <==> (!Wraps(c) || c >= w.next || w.next <= c + N_BITS - U64_SIZE || c in w.marked)
  {
  }

  /** The first counter that the wrap-around loses: after one packet, counter 2^64 - 1024 passes
      the quick check and is then refused. */
  lemma WrapRefusesFreshCounter()
    ensures var w := Mark(EMPTY, 0).1;
            var c: u64 := 0xffff_ffff_ffff_fc00;
            Fresh(w, c) && WillAccept(w, c).Ok? && Mark(w, c).0.Err?
  {
  }

  /** A marked counter is refused from then on, unless it was the last one, which sets `next` to zero. */
  lemma MarkedIsDuplicate(w: Window, c: u64)
    requires WellFormed(w) && Mark(w, c).0.Ok?
    ensures var w1 := Mark(w, c).1;
            && c in w1.marked
            && (WillAccept(w1, c).Err? <==> c != LAST_COUNTER)
            && (Mark(w1, c).0.Err? <==> c != LAST_COUNTER)
            && (!Wraps(c) ==> WillAccept(w1, c) == Err(DuplicateCounter))
  {
  }

  /** Accepting a counter adds one new element to the set. */
  lemma MarkGrows(w: Window, c: u64)
    requires WellFormed(w) && Mark(w, c).0.Ok?
    ensures c !in w.marked && Mark(w, c).1.marked == w.marked + {c}
    ensures |Mark(w, c).1.marked| == |w.marked| + 1
    ensures WellFormed(Mark(w, c).1) <==> c != LAST_COUNTER
  {
    assert c in Mark(w, c).1.marked;
  }

  /** A counter that is not fresh becomes fresh again only by marking the last counter of all. */
  lemma StaleForEver(w: Window, c: u64, d: u64)
    requires WellFormed(w) && !Fresh(w, c)
    ensures Fresh(Mark(w, d).1, c) <==> d == LAST_COUNTER && Mark(w, d).0.Ok?
  {
  }
}

/** The 1024-bit circular bitmap of protocol/boringtun/src/noise/session.rs. */
module CounterValidator {
  import opened Wrappers
  import opened WordBits
  import opened ReplayWindow

  const WORD_SIZE: nat := 64
  const N_WORDS: nat := 16

  function Slot(c: nat): nat {
    c % N_BITS
  }

  /** The slots that are set in a bitmap. */
  ghost function Bits(words: seq<bv64>): set<nat>
    requires |words| == N_WORDS
  {
    set s: nat | s < N_BITS && Bit(words[s / WORD_SIZE], Amount(s % WORD_SIZE))
  }

  /** The slots of the counters lo..hi. */
  ghost function Slots(lo: nat, hi: nat): set<nat> {
    set c | lo <= c < hi :: Slot(c)
  }

  /** The bitmap tells the truth about the last N_BITS counters. */
  ghost predicate Represents(bits: set<nat>, w: Window) {
    && WellFormed(w)
    && forall c: nat | c < w.next <= c + N_BITS :: Slot(c) in bits <==> c in w.marked
  }

  lemma SlotPosition(s: nat, t: nat)
    ensures s == t <==> s / WORD_SIZE == t / WORD_SIZE && s % WORD_SIZE == t % WORD_SIZE
  {
  }

  lemma BitsAfterSet(words: seq<bv64>, t: nat)
    requires |words| == N_WORDS && t < N_BITS
    ensures Bits(words[t / WORD_SIZE := WithBit(words[t / WORD_SIZE], Amount(t % WORD_SIZE))]) == Bits(words) + {t}
  {
    hide Bit, WithBit;
    var words' := words[t / WORD_SIZE := WithBit(words[t / WORD_SIZE], Amount(t % WORD_SIZE))];
    forall s: nat | s < N_BITS
      ensures s in Bits(words') <==> (s == t || s in Bits(words))
    {
      SlotPosition(s, t);
      BitsOfWithBit(words[t / WORD_SIZE], Amount(t % WORD_SIZE), Amount(s % WORD_SIZE));
      assert Amount(s % WORD_SIZE) == Amount(t % WORD_SIZE) <==> s % WORD_SIZE == t % WORD_SIZE;
    }
  }

  lemma BitsAfterClear(words: seq<bv64>, t: nat)
    requires |words| == N_WORDS && t < N_BITS
    ensures Bits(words[t / WORD_SIZE := WithoutBit(words[t / WORD_SIZE], Amount(t % WORD_SIZE))]) == Bits(words) - {t}
  {
    hide Bit, WithoutBit;
    var words' := words[t / WORD_SIZE := WithoutBit(words[t / WORD_SIZE], Amount(t % WORD_SIZE))];
    forall s: nat | s < N_BITS
      ensures s in Bits(words') <==> (s != t && s in Bits(words))
    {
      SlotPosition(s, t);
      BitsOfWithoutBit(words[t / WORD_SIZE], Amount(t % WORD_SIZE), Amount(s % WORD_SIZE));
      assert Amount(s % WORD_SIZE) == Amount(t % WORD_SIZE) <==> s % WORD_SIZE == t % WORD_SIZE;
    }
  }

  /** Counters less than N_BITS apart do not share a slot. */
  lemma SlotsDiffer(c: nat, d: nat)
    requires c < d < c + N_BITS
    ensures Slot(c) != Slot(d)
  {
  }

  lemma OneMoreSlot(lo: nat, i: nat)
    requires lo <= i
    ensures Slots(lo, i + 1) == Slots(lo, i) + {Slot(i)}
  {
  }

  /** The counters of an aligned word fill one word of slots. */
  lemma SlotInWord(i: nat, k: nat)
    requires i % WORD_SIZE == 0 && k < WORD_SIZE
    ensures Slot(i + k) == Slot(i) + k
  {
    assert i % N_BITS % WORD_SIZE == 0;
  }

  /** Clearing the word of an aligned counter clears the slots of 64 counters. */
  lemma OneMoreWord(words: seq<bv64>, lo: nat, i: nat)
    requires |words| == N_WORDS && lo <= i && i % WORD_SIZE == 0
    ensures Bits(words[Slot(i) / WORD_SIZE := 0]) == Bits(words) - Slots(i, i + WORD_SIZE)
    ensures Slots(lo, i + WORD_SIZE) == Slots(lo, i) + Slots(i, i + WORD_SIZE)
  {
    hide Bit;
    forall s: nat | s < N_BITS
      ensures s in Slots(i, i + WORD_SIZE) <==> s / WORD_SIZE == Slot(i) / WORD_SIZE
    {
      SlotInWord(i, s % WORD_SIZE);
      SlotInWord(i, 0);
      assert Slot(i) % WORD_SIZE == 0;
      if s / WORD_SIZE == Slot(i) / WORD_SIZE {
        assert Slot(i + s % WORD_SIZE) == s;
      } else if s in Slots(i, i + WORD_SIZE) {
        var c :| i <= c < i + WORD_SIZE && Slot(c) == s;
        SlotInWord(i, c - i);
      }
    }
    forall b: bv6 { ZeroWord(b); }
  }

  lemma SameWord(idx: nat)
    ensures Slot(idx) / WORD_SIZE == Slot(idx - idx % WORD_SIZE) / WORD_SIZE
  {
    SlotInWord(idx - idx % WORD_SIZE, idx % WORD_SIZE);
    assert Slot(idx - idx % WORD_SIZE) % WORD_SIZE == 0;
  }

  lemma SkipMore(bits: set<nat>, lo: nat, i: nat)
    requires Slots(lo, i + WORD_SIZE) == Slots(lo, i) + Slots(i, i + WORD_SIZE)
    ensures bits - Slots(lo, i) - Slots(i, i + WORD_SIZE) == bits - Slots(lo, i + WORD_SIZE)
  {
  }

  /** N_BITS counters use every slot. */
  lemma AllSlots(words: seq<bv64>, lo: nat, hi: nat)
    requires |words| == N_WORDS && hi - lo >= N_BITS
    ensures Bits(words) <= Slots(lo, hi)
  {
    hide Bit;
    forall s: nat | s < N_BITS
      ensures s in Slots(lo, hi)
    {
      var c := lo + (s + N_BITS - lo % N_BITS) % N_BITS;
      assert Slot(c) == s;
    }
  }

  lemma NoBits(words: seq<bv64>)
    requires |words| == N_WORDS && forall w | 0 <= w < N_WORDS :: words[w] == 0
    ensures Bits(words) == {}
  {
    hide Bit;
    forall s: nat | s < N_BITS
      ensures s !in Bits(words)
    {
      ZeroWord(Amount(s % WORD_SIZE));
    }
  }

  lemma NoSlots(lo: nat)
    ensures Slots(lo, lo) == {}
  {
  }

  /** Marking a counter inside the window. */
  lemma RepresentsOld(bits: set<nat>, w: Window, counter: nat)
    requires Represents(bits, w) && counter < w.next <= counter + N_BITS
    ensures Represents(bits + {Slot(counter)}, Window(w.next, w.marked + {counter}))
  {
    forall c: nat | c < w.next <= c + N_BITS
      ensures Slot(c) in bits + {Slot(counter)} <==> c in w.marked + {counter}
    {
      if c < counter {
        SlotsDiffer(c, counter);
      } else if c > counter {
        SlotsDiffer(counter, c);
      }
    }
  }

  /** Moving the window ahead: clear the slots that were skipped, then mark. */
  lemma RepresentsNew(bits: set<nat>, w: Window, counter: nat)
    requires Represents(bits, w) && w.next <= counter && counter + 1 < U64_SIZE
    ensures Represents(bits - Slots(w.next, counter) + {Slot(counter)}, Window(counter + 1, w.marked + {counter}))
  {
    var bits' := bits - Slots(w.next, counter) + {Slot(counter)};
    forall c: nat | c <= counter < c + N_BITS
      ensures Slot(c) in bits' <==> c in w.marked + {counter}
    {
      if c < counter {
        SlotsDiffer(c, counter);
        if c < w.next && Slot(c) in Slots(w.next, counter) {
          var d :| w.next <= d < counter && Slot(d) == Slot(c);
          SlotsDiffer(c, d);
        }
      }
    }
  }

  class ReceivingKeyCounterValidator {
    var next: u64
    var receiveCnt: nat
    const bitmap: array<bv64>
    ghost var marked: set<nat>

    ghost predicate Valid()
      reads this, bitmap
    {
      bitmap.Length == N_WORDS && Represents(Bits(bitmap[..]), View())
    }

    ghost function View(): Window
      reads this
    {
      Window(next, marked)
    }

    constructor ()
      ensures Valid() && fresh(bitmap)
      ensures View() == EMPTY && receiveCnt == 0
    {
      next, receiveCnt, marked := 0, 0, {};
      bitmap := new bv64[N_WORDS](_ => 0);
    }

    method SetBit(idx: nat)
      requires bitmap.Length == N_WORDS
      modifies bitmap
      ensures Bits(bitmap[..]) == old(Bits(bitmap[..])) + {Slot(idx)}
    {
      hide Bit, WithBit;
      var bitIdx := idx % N_BITS;
      var word := bitIdx / WORD_SIZE;
      var bit := Amount(bitIdx % WORD_SIZE);
      bitmap[word] := WithBit(bitmap[word], bit);
      BitsAfterSet(old(bitmap[..]), bitIdx);
      assert bitmap[..] == old(bitmap[..])[word := WithBit(old(bitmap[word]), bit)];
    }

    method ClearBit(idx: nat)
      requires bitmap.Length == N_WORDS
      modifies bitmap
      ensures Bits(bitmap[..]) == old(Bits(bitmap[..])) - {Slot(idx)}
    {
      hide Bit, WithoutBit;
      var bitIdx := idx % N_BITS;
      var word := bitIdx / WORD_SIZE;
      var bit := Amount(bitIdx % WORD_SIZE);
      bitmap[word] := WithoutBit(bitmap[word], bit);
      BitsAfterClear(old(bitmap[..]), bitIdx);
      assert bitmap[..] == old(bitmap[..])[word := WithoutBit(old(bitmap[word]), bit)];
    }

    method ClearWord(idx: nat)
      requires bitmap.Length == N_WORDS
      modifies bitmap
      ensures Bits(bitmap[..]) == old(Bits(bitmap[..])) - Slots(idx - idx % WORD_SIZE,
                                                                idx - idx % WORD_SIZE + WORD_SIZE)
    {
      hide Bits, Slots;
      var bitIdx := idx % N_BITS;
      var word := bitIdx / WORD_SIZE;
      OneMoreWord(bitmap[..], 0, idx - idx % WORD_SIZE);
      SameWord(idx);
      bitmap[word] := 0;
      assert bitmap[..] == old(bitmap[..])[word := 0];
    }

    method CheckBit(idx: nat) returns (b: bool)
      requires bitmap.Length == N_WORDS
      ensures b <==> Slot(idx) in Bits(bitmap[..])
    {
      hide Bit;
      var bitIdx := idx % N_BITS;
      var word := bitIdx / WORD_SIZE;
      var bit := Amount(bitIdx % WORD_SIZE);
      b := Bit(bitmap[word], bit);
    }

    method WillAccept(counter: u64) returns (r: Result<Unit>)
      requires Valid()
      ensures r == ReplayWindow.WillAccept(View(), counter)
    {
      hide Bits;
      if counter >= next {
        return Ok(Unit);
      }
      if (counter + N_BITS) % U64_SIZE < next {
        return Err(InvalidCounter);
      }
      var seen := CheckBit(counter);
      if !seen {
        return Ok(Unit);
      } else {
        return Err(DuplicateCounter);
      }
    }

    /** Skipping ahead from `next` to `counter` clears exactly the slots of the skipped counters. */
    method ClearSkipped(counter: u64)
      requires bitmap.Length == N_WORDS && next < counter
      modifies bitmap
      ensures Bits(bitmap[..]) == old(Bits(bitmap[..])) - Slots(next, counter)
    {
      hide Bits, Slots;
      if counter - next >= N_BITS {
        for c := 0 to N_WORDS
          invariant forall w | 0 <= w < c :: bitmap[w] == 0
        {
          bitmap[c] := 0;
        }
        NoBits(bitmap[..]);
        AllSlots(old(bitmap[..]), next, counter);
      } else {
        NoSlots(next);
        var i: nat := next;
        while i % WORD_SIZE != 0 && i < counter
          invariant next <= i <= counter
          invariant Bits(bitmap[..]) == old(Bits(bitmap[..])) - Slots(next, i)
          decreases counter - i
        {
          OneMoreSlot(next, i);
          ClearBit(i);
          i := i + 1;
        }
        while i + WORD_SIZE < counter
          invariant next <= i <= counter && (i == counter || i % WORD_SIZE == 0)
          invariant Bits(bitmap[..]) == old(Bits(bitmap[..])) - Slots(next, i)
        {
          OneMoreWord(bitmap[..], next, i);
          ClearWord(i);
          SkipMore(old(Bits(bitmap[..])), next, i);
          i := (i + WORD_SIZE) - (i + WORD_SIZE) % WORD_SIZE;
        }
        while i < counter
          invariant next <= i <= counter
          invariant Bits(bitmap[..]) == old(Bits(bitmap[..])) - Slots(next, i)
        {
          OneMoreSlot(next, i);
          ClearBit(i);
          i := i + 1;
        }
      }
    }

    /** Marks the counter as received. Only the last counter of the 64-bit range breaks the
        representation, by wrapping `next` to zero. */
    method MarkDidReceive(counter: u64) returns (r: Result<Unit>)
      requires Valid()
      modifies this`next, this`marked, bitmap
      ensures (r, View()) == Mark(old(View()), counter)
      ensures counter + 1 < U64_SIZE || r.Err? ==> Valid()
    {
      hide Bits, Slots;
      ghost var bits, w := Bits(bitmap[..]), View();
      if (counter + N_BITS) % U64_SIZE < next {
        return Err(InvalidCounter);
      }
      if counter == next {
        SetBit(counter);
        next := (next + 1) % U64_SIZE;
        marked := marked + {counter};
        if counter + 1 < U64_SIZE {
          NoSlots(counter);
          RepresentsNew(bits, w, counter);
        }
        return Ok(Unit);
      }
      if counter < next {
        var seen := CheckBit(counter);
        if seen {
          return Err(InvalidCounter);
        }
        SetBit(counter);
        marked := marked + {counter};
        RepresentsOld(bits, w, counter);
        return Ok(Unit);
      }
      ClearSkipped(counter);
      SetBit(counter);
      next := (counter + 1) % U64_SIZE;
      marked := marked + {counter};
      if counter + 1 < U64_SIZE {
        RepresentsNew(bits, w, counter);
      }
      return Ok(Unit);
    }
  }
}
