/** What one call of the transmit `seek_` does, and when it keeps the frame pool intact. */
module TxReclaim {
  import opened Words
  import opened Slices
  import opened Umem
  import opened TxMachine
  import opened TxInvariant
  import opened TxTheorems

  /** The labels of `k` turns of the loop. */
  function Rounds(k: nat): seq<TxLabel> {
    if k == 0 then [] else Rounds(k - 1) + [SeekRead] + [SeekRelease] + [SeekStore]
  }

  /** How many completions a call of `seek_(count)` reclaims when the kernel publishes nothing meanwhile. */
  function Reclaims(s: Tx, count: nat): (k: nat) {
    if s.avail >= count || s.cProd <= s.cons then 0 else Min(count - s.avail, s.cProd - s.cons)
  }

  /** The state after reclaiming `k` completions, as the program does it: one slot is written, and it ends with the
      last reclaimed address. */
  function Reclaimed(s: Tx, k: nat): Tx
    requires Counts(s) && k <= s.kDone - s.cons
  {
    if k == 0 then s
    else s.(avail := s.avail + k, cons := s.cons + k, cCons := s.cCons + k,
            xDesc := s.xDesc[Slot(Wide, s.n, s.prod) := XdpDesc(At(s.cDesc, s.cons + k - 1), 0, 0)])
  }

  lemma OneRound(s: Tx)
    requires Counts(s) && s.pc.Polling? && !s.repaired
    ensures var r := Store(Wide, Release(Claim(Wide, s)));
            && Counts(r)
            && r == Reclaimed(s, 1).(pc := PcAfter(s, 1))
  {
    hide Slot;
    StepCounts(s, SeekRead);
    StepCounts(Claim(Wide, s), SeekRelease);
    StepCounts(Release(Claim(Wide, s)), SeekStore);
  }

  lemma RoundRuns(s: Tx, tr: seq<TxLabel>)
    requires Shape(s) && Run(Wide, s, tr).pc.Polling?
    ensures Run(Wide, s, tr + [SeekRead] + [SeekRelease] + [SeekStore])
            == Store(Wide, Release(Claim(Wide, Run(Wide, s, tr))))
  {
    RunSnoc(Wide, s, tr, SeekRead);
    RunSnoc(Wide, s, tr + [SeekRead], SeekRelease);
    RunSnoc(Wide, s, tr + [SeekRead] + [SeekRelease], SeekStore);
  }

  function PcAfter(s: Tx, k: nat): TxPc
    requires s.pc.Polling?
  {
    if s.avail + k >= s.pc.count || s.cons + k == s.pc.snap then Idle else s.pc
  }

  lemma ReclaimedNext(s: Tx, k: nat, pc: TxPc)
    requires Counts(s) && s.pc.Polling? && 0 < k <= s.cProd - s.cons
    requires Counts(Reclaimed(s, k - 1).(pc := s.pc))
    ensures Reclaimed(Reclaimed(s, k - 1).(pc := s.pc), 1).(pc := pc) == Reclaimed(s, k).(pc := pc)
  {
    hide Slot;
  }

  lemma {:induction false} ManyRounds(s: Tx, k: nat)
    requires Counts(s) && s.pc.Polling? && !s.repaired
    requires k <= s.pc.count - s.avail && k <= s.pc.snap - s.cons
    ensures Counts(Run(Wide, s, Rounds(k)))
    ensures Run(Wide, s, Rounds(k)) == Reclaimed(s, k).(pc := PcAfter(s, k))
  {
    hide Slot, Step;
    if k > 0 {
      ManyRounds(s, k - 1);
      var r := Run(Wide, s, Rounds(k - 1));
      assert r == Reclaimed(s, k - 1).(pc := s.pc);
      OneRound(r);
      RoundRuns(s, Rounds(k - 1));
      ReclaimedNext(s, k, PcAfter(s, k));
      hide Store, Release, Claim;
    }
  }

  /** A call that the kernel does not overtake: it reclaims exactly what it needs and finds, makes
      `max(available, min(count, available + pending))` descriptors available, and touches one TX slot. */
  lemma SeekCall(s: Tx, count: nat)
    requires Counts(s) && s.pc.Idle? && !s.repaired
    ensures var k := Reclaims(s, count);
            && Run(Wide, s, [SeekStart(count)] + Rounds(k)) == Reclaimed(s, k)
            && Counts(Reclaimed(s, k))
            && Reclaimed(s, k).avail == (if s.avail >= count then s.avail else Min(count, s.avail + s.cProd - s.cons))
            && (k == 0 <==> s.avail >= count || s.cProd == s.cons)
  {
    hide Slot, At, Run;
    var k := Reclaims(s, count);
    RunCons(Wide, s, SeekStart(count), Rounds(k));
    SeekStarts(s, count);
    hide Step;
    if k > 0 {
      ManyRounds(SeekStarted(s, count), k);
    } else {
      NoRounds(SeekStarted(s, count));
    }
  }

  lemma SeekStarts(s: Tx, count: nat)
    requires Counts(s) && s.pc.Idle?
    ensures Step(Wide, s, SeekStart(count)) == SeekStarted(s, count) && Counts(SeekStarted(s, count))
  {
    hide Slot;
    StepCounts(s, SeekStart(count));
  }

  lemma NoRounds(s: Tx)
    requires Shape(s)
    ensures Run(Wide, s, Rounds(0)) == s
  {
  }

  // ----------------------------------------------------------------------------------------------------------------
  // A call that the kernel overtakes
  // ----------------------------------------------------------------------------------------------------------------

  /** What can happen between the load of the Completion producer and the end of the call. */
  predicate WithinCall(l: TxLabel) {
    IsKernel(l) || l.SeekRead? || l.SeekRelease? || l.SeekStore?
  }

  /** State `t` is reached within the call that loaded in state `s`; the call has stored `k` descriptors. */
  predicate Within(s: Tx, count: nat, k: nat, t: Tx)
    requires Counts(s)
  {
    && Counts(t) && k <= Reclaims(s, count) <= s.cProd - s.cons
    && t.n == s.n && t.repaired == s.repaired && t.prod == s.prod && t.sent == s.sent && s.cProd <= t.cProd
    && t.avail == s.avail + k && t.xDesc == Reclaimed(s, k).xDesc
    && t.cons == s.cons + k + (if InTransit(t) then 1 else 0)
    && (t.pc.Idle? <==> k == Reclaims(s, count))
    && (!t.pc.Idle? ==> t.pc.count == count && t.pc.snap == s.cProd)
    && (InTransit(t) ==> t.pc.addr == At(s.cDesc, s.cons + k))
    && (forall j | t.cons <= j < s.cProd :: At(t.cDesc, j) == At(s.cDesc, j))
  }

  lemma WithinStep(s: Tx, count: nat, k: nat, t: Tx, l: TxLabel) returns (k': nat)
    requires Counts(s) && s.pc.Idle? && !s.repaired && Within(s, count, k, t) && WithinCall(l)
    ensures Within(s, count, k', Step(Wide, t, l))
  {
    k' := k;
    if l.SeekStore? && t.pc.Released? {
      k' := k + 1;
      WithinStore(s, count, k, t);
    } else if IsKernel(l) {
      WithinKernel(s, count, k, t, l);
    } else {
      hide Reclaimed, Slot;
      StepCounts(t, l);
    }
  }

  lemma WithinStore(s: Tx, count: nat, k: nat, t: Tx)
    requires Counts(s) && s.pc.Idle? && !s.repaired && Within(s, count, k, t) && t.pc.Released?
    ensures Within(s, count, k + 1, Step(Wide, t, SeekStore))
  {
    hide Slot;
    StepCounts(t, SeekStore);
  }

  lemma WithinKernel(s: Tx, count: nat, k: nat, t: Tx, l: TxLabel)
    requires Counts(s) && Within(s, count, k, t) && IsKernel(l)
    ensures Within(s, count, k, Step(Wide, t, l))
  {
    hide Slot, Overwrite, OwnRegionKept, PacketOf, Reclaimed, Reclaims, Without;
    StepCounts(t, l);
    if l.KComplete? && Enabled(Wide, t, l) {
      forall j | t.cons <= j < s.cProd
        ensures At(Complete(Wide, t, l.j).cDesc, j) == At(t.cDesc, j)
      {
        SlotsApart(t.n, j, t.kDone);
      }
    }
  }

  lemma {:induction false} WithinRun(s: Tx, count: nat, ks: seq<TxLabel>) returns (k: nat)
    requires Counts(s) && s.pc.Idle? && !s.repaired
    requires forall i | 0 <= i < |ks| :: WithinCall(ks[i])
    ensures Within(s, count, k, Run(Wide, s, [SeekStart(count)] + ks))
    decreases |ks|
  {
    if ks == [] {
      k := 0;
      RunCons(Wide, s, SeekStart(count), []);
      StepCounts(s, SeekStart(count));
      assert [SeekStart(count)] + ks == [SeekStart(count)] + [];
    } else {
      hide Step, Within, WithinCall;
      var t := ks[..|ks| - 1];
      k := WithinRun(s, count, t);
      assert [SeekStart(count)] + ks == ([SeekStart(count)] + t) + [ks[|ks| - 1]];
      RunSnoc(Wide, s, [SeekStart(count)] + t, ks[|ks| - 1]);
      k := WithinStep(s, count, k, Run(Wide, s, [SeekStart(count)] + t), ks[|ks| - 1]);
    }
  }

  /** Wherever the kernel runs in the call: when the call is over, everything that the socket writes is as if it had not
      been overtaken after its load.  In particular the slot that was stored ends with the last reclaimed address. */
  lemma {:induction false} SeekOvertaken(s: Tx, count: nat, ks: seq<TxLabel>)
    requires Counts(s) && s.pc.Idle? && !s.repaired
    requires forall i | 0 <= i < |ks| :: WithinCall(ks[i])
    ensures var r := Run(Wide, s, [SeekStart(count)] + ks);
            && Counts(r) && s.avail <= r.avail <= s.avail + Reclaims(s, count)
            && (r.pc.Idle? ==> SocketSide(r) == SocketSide(Reclaimed(s, Reclaims(s, count))))
  {
    hide Run, Step, Slot;
    var k := WithinRun(s, count, ks);
  }

  // ----------------------------------------------------------------------------------------------------------------
  // When reclaim keeps the pool
  // ----------------------------------------------------------------------------------------------------------------

  /** The frames that only overwritten or consumed entries named: the first available one, and all reclaimed ones but
      the last. */
  function Lost(s: Tx, k: nat): seq<nat>
    requires Counts(s) && 0 < k <= s.kDone - s.cons
  {
    First(s) + Slice(s.cDesc, s.cons, k - 1)
  }

  /** The old descriptors that the call makes available without having written them. */
  function Exposed(s: Tx, k: nat): seq<nat>
    requires Counts(s) && 0 < k <= s.kDone - s.cons
  {
    if s.avail > 0 then Slice(Addrs(s.xDesc), s.prod + s.avail, k)
    else Slice(Addrs(s.xDesc), s.prod + 1, k - 1)
  }

  /** Reclaiming `k` completions at once keeps every frame exactly once if and only if the old descriptors it exposes
      happen to name the frames it forgets. */
  lemma ReclaimConserves(s: Tx, k: nat)
    requires Counts(s) && s.pc.Idle? && Conserved(s)
    requires 0 < k <= s.kDone - s.cons && Counts(Reclaimed(s, k))
    ensures Conserved(Reclaimed(s, k)) <==> multiset(Exposed(s, k)) == multiset(Lost(s, k))
  {
    var common := Common(s, k);
    OwnedBefore(s, k);
    OwnedAfter(s, k);
    hide Owned, Common, Exposed, Lost, Reclaimed;
    Cancel(common, multiset(Exposed(s, k)), multiset(Lost(s, k)));
  }

  function First(s: Tx): seq<nat>
    requires Counts(s)
  {
    if s.avail > 0 then [At(Addrs(s.xDesc), s.prod)] else []
  }

  function Others(s: Tx): seq<nat>
    requires Counts(s)
  {
    if s.avail > 0 then Slice(Addrs(s.xDesc), s.prod + 1, s.avail - 1) else []
  }

  /** What both states own: committed, other available, last reclaimed, in flight, and not yet reclaimed frames. */
  function Common(s: Tx, k: nat): multiset<nat>
    requires Counts(s) && 0 < k <= s.kDone - s.cons
  {
    Kept(Slice(Addrs(s.xDesc), s.kTaken, s.prod - s.kTaken), Others(s), At(s.cDesc, s.cons + k - 1),
         HeldAddrs(s.held), Slice(s.cDesc, s.cons + k, s.kDone - s.cons - k))
  }

  function Kept(committed: seq<nat>, others: seq<nat>, last: nat, held: seq<nat>, rest: seq<nat>): multiset<nat> {
    multiset(committed) + multiset(others) + multiset{last} + multiset(held) + multiset(rest)
  }

  lemma PoolBefore(committed: seq<nat>, first: seq<nat>, others: seq<nat>, held: seq<nat>,
                   done: seq<nat>, last: nat, rest: seq<nat>)
    ensures Pool(committed + (first + others), [], held, done + ([last] + rest))
            == Kept(committed, others, last, held, rest) + multiset(first + done)
  {
  }

  lemma PoolAfter(committed: seq<nat>, others: seq<nat>, exposed: seq<nat>, held: seq<nat>, last: nat, rest: seq<nat>)
    ensures Pool(committed + ([last] + (others + exposed)), [], held, rest)
            == Kept(committed, others, last, held, rest) + multiset(exposed)
  {
  }

  lemma OwnedBefore(s: Tx, k: nat)
    requires Counts(s) && s.pc.Idle? && 0 < k <= s.kDone - s.cons
    ensures Owned(s) == Common(s, k) + multiset(Lost(s, k))
  {
    hide Pool, Kept, Slice, At;
    var x := Addrs(s.xDesc);
    var committed, done := Slice(x, s.kTaken, s.prod - s.kTaken), Slice(s.cDesc, s.cons, k - 1);
    var last, rest := At(s.cDesc, s.cons + k - 1), Slice(s.cDesc, s.cons + k, s.kDone - s.cons - k);
    SliceSplit(x, s.kTaken, s.prod - s.kTaken, s.avail);
    FirstAndOthers(x, s.prod, s.avail);
    SliceSplit(s.cDesc, s.cons, k - 1, s.kDone - s.cons - (k - 1));
    SliceHead(s.cDesc, s.cons + k - 1, s.kDone - s.cons - (k - 1));
    PoolBefore(committed, First(s), Others(s), HeldAddrs(s.held), done, last, rest);
  }

  lemma FirstAndOthers(x: seq<nat>, prod: int, avail: nat)
    requires |x| > 0
    ensures Slice(x, prod, avail) == (if avail > 0 then [At(x, prod)] else [])
                                     + (if avail > 0 then Slice(x, prod + 1, avail - 1) else [])
  {
    if avail > 0 {
      SliceHead(x, prod, avail);
    }
  }

  lemma OwnedAfter(s: Tx, k: nat)
    requires Counts(s) && s.pc.Idle? && 0 < k <= s.kDone - s.cons && Counts(Reclaimed(s, k))
    ensures Owned(Reclaimed(s, k)) == Common(s, k) + multiset(Exposed(s, k))
  {
    hide Pool, Kept, Slice, At, Slot;
    var x, x' := Addrs(s.xDesc), Addrs(Reclaimed(s, k).xDesc);
    var last, rest := At(s.cDesc, s.cons + k - 1), Slice(s.cDesc, s.cons + k, s.kDone - s.cons - k);
    assert x' == x[Slot(Wide, s.n, s.prod) := last];
    WindowAfter(x, s.kTaken, s.prod, s.avail, k, last);
    PoolAfter(Slice(x, s.kTaken, s.prod - s.kTaken), Others(s), Exposed(s, k), HeldAddrs(s.held), last, rest);
  }

  lemma Cancel(a: multiset<nat>, b: multiset<nat>, c: multiset<nat>)
    ensures a + b == a + c <==> b == c
  {
    assert (a + b) - a == b && (a + c) - a == c;
  }

  lemma WindowAfter(x: seq<nat>, taken: int, prod: int, avail: nat, k: nat, last: nat)
    requires 0 < k && taken <= prod && prod + avail + k <= taken + |x|
    ensures Slice(x[Slot(Wide, |x|, prod) := last], taken, prod + avail + k - taken)
            == Slice(x, taken, prod - taken)
               + ([last] + ((if avail > 0 then Slice(x, prod + 1, avail - 1) else [])
                            + (if avail > 0 then Slice(x, prod + avail, k) else Slice(x, prod + 1, k - 1))))
  {
    var x' := x[Slot(Wide, |x|, prod) := last];
    var c, m := prod - taken, avail + k - 1;
    SliceSplit(x', taken, c, 1 + m);
    SliceHead(x', prod, 1 + m);
    SliceKept(x, prod, last, taken, c);
    SliceKept(x, prod, last, prod + 1, m);
    if avail > 0 {
      SliceSplit(x, prod + 1, avail - 1, k);
    }
  }

  /** A pool in which `first` has become `exposed`. */
  function Swapped(pool: multiset<nat>, first: nat, exposed: nat): multiset<nat> {
    pool + multiset{exposed} - multiset{first}
  }

  /** The entries in use before and after a store over an available descriptor. */
  lemma WindowStored(t: Tx)
    requires Counts(t) && t.pc.Released? && !t.repaired && t.avail > 0 && Counts(Store(Wide, t))
    ensures var x := Addrs(t.xDesc);
            var committed, others := Slice(x, t.kTaken, t.prod - t.kTaken), Slice(x, t.prod + 1, t.avail - 1);
            && TxWindow(t) == committed + ([At(x, t.prod)] + others)
            && TxWindow(Store(Wide, t)) == committed + ([t.pc.addr] + (others + [At(x, t.prod + t.avail)]))
  {
    hide Slice, At, Slot;
    var x, c := Addrs(t.xDesc), t.prod - t.kTaken;
    assert Addrs(Store(Wide, t).xDesc) == x[Slot(Wide, t.n, t.prod) := t.pc.addr];
    WindowAfter(x, t.kTaken, t.prod, t.avail, 1, t.pc.addr);
    SliceSplit(x, t.kTaken, c, t.avail);
    SliceHead(x, t.prod, t.avail);
    OneEntry(x, t.prod + t.avail);
  }

  /** A store over an available descriptor: the frame of the first one is forgotten, an old descriptor is exposed. */
  lemma StoreChanges(t: Tx)
    requires Counts(t) && t.pc.Released? && !t.repaired && t.avail > 0 && Counts(Store(Wide, t))
    ensures Owned(Store(Wide, t))
            == Swapped(Owned(t), t.xDesc[AvailSlot(Wide, t, 0)].addr, t.xDesc[AvailSlot(Wide, t, t.avail)].addr)
  {
    WindowStored(t);
    hide TxWindow, Slice, Slot, Pool, Swapped;
    var r, x := Store(Wide, t), Addrs(t.xDesc);
    assert Hand(t) == [t.pc.addr] && Hand(r) == [] && CompletionWindow(r) == CompletionWindow(t);
    assert t.xDesc[AvailSlot(Wide, t, 0)].addr == At(x, t.prod);
    assert t.xDesc[AvailSlot(Wide, t, t.avail)].addr == At(x, t.prod + t.avail);
    hide AvailSlot, At, Addrs, HeldAddrs, CompletionWindow, Hand;
    PoolChanges(Slice(x, t.kTaken, t.prod - t.kTaken), At(x, t.prod), Slice(x, t.prod + 1, t.avail - 1),
                At(x, t.prod + t.avail), t.pc.addr, HeldAddrs(t.held), CompletionWindow(t));
  }

  lemma OneEntry(x: seq<nat>, k: int)
    requires |x| > 0
    ensures Slice(x, k, 1) == [At(x, k)]
  {
  }

  lemma PoolChanges(committed: seq<nat>, first: nat, others: seq<nat>, exposed: nat, last: nat, held: seq<nat>,
                    rest: seq<nat>)
    ensures Pool(committed + ([last] + (others + [exposed])), [], held, rest)
            == Swapped(Pool(committed + ([first] + others), [last], held, rest), first, exposed)
  {
  }

  /** What the pool becomes by a store does not depend on the kernel. */
  lemma {:induction false} StoreSame(t: Tx, w: Tx)
    requires Counts(t) && t.pc.Released? && !t.repaired && Counts(Store(Wide, t))
    requires Counts(w) && w.pc.Released? && !w.repaired && Counts(Store(Wide, w))
    requires t.avail == w.avail && t.prod == w.prod && t.n == w.n && t.xDesc == w.xDesc && Owned(t) == Owned(w)
    ensures Owned(Store(Wide, t)) == Owned(Store(Wide, w))
  {
    assert Shape(t) && Shape(w) && t.avail >= 0;
    hide Owned, Counts, Swapped, Store, Slot;
    if t.avail == 0 {
      StoreMoves(t);
      StoreMoves(w);
    } else {
      assert AvailSlot(Wide, t, 0) == AvailSlot(Wide, w, 0);
      assert AvailSlot(Wide, t, t.avail) == AvailSlot(Wide, w, w.avail);
      hide AvailSlot;
      StoreChanges(t);
      StoreChanges(w);
    }
  }

  /** The turn that an undisturbed call makes after `k` others, up to its store. */
  lemma TurnBeforeStore(s: Tx, k: nat) returns (w: Tx)
    requires Counts(s) && s.pc.Idle? && !s.repaired && k < s.cProd - s.cons
    ensures Counts(Reclaimed(s, k)) && Counts(w) && w.pc.Released? && !w.repaired && Counts(Store(Wide, w))
    ensures w.avail == s.avail + k && w.prod == s.prod && w.xDesc == Reclaimed(s, k).xDesc
    ensures Owned(w) == Owned(Reclaimed(s, k)) && Counts(Reclaimed(s, k + 1))
    ensures Owned(Store(Wide, w)) == Owned(Reclaimed(s, k + 1))
  {
    hide Slot, At, Pool;
    var u := Reclaimed(s, k);
    var v := u.(pc := Polling(u.avail + 1, u.cProd));
    assert Counts(v);
    StepConserved(v, SeekRead);
    StepConserved(Claim(Wide, v), SeekRelease);
    w := Release(Claim(Wide, v));
    OneRound(v);
    SameOwned(v, u);
    ReclaimedTwice(s, k);
    SameOwned(Store(Wide, w), Reclaimed(s, k + 1));
  }

  lemma SameOwned(a: Tx, b: Tx)
    requires Counts(a) && Counts(b) && !InTransit(a) && !InTransit(b) && a.(pc := b.pc) == b
    ensures Owned(a) == Owned(b)
  {
    hide Pool, Slice;
  }

  lemma ReclaimedTwice(s: Tx, k: nat)
    requires Counts(s) && k < s.cProd - s.cons && s.pc.Idle?
    ensures Counts(Reclaimed(s, k)) && Counts(Reclaimed(s, k + 1))
    ensures Reclaimed(Reclaimed(s, k), 1) == Reclaimed(s, k + 1)
  {
    hide Slot, At;
  }

  lemma WithinOwned(s: Tx, count: nat, k: nat, t: Tx, l: TxLabel) returns (k': nat)
    requires Counts(s) && s.pc.Idle? && !s.repaired && Within(s, count, k, t) && WithinCall(l)
    requires Counts(Reclaimed(s, k)) && Owned(t) == Owned(Reclaimed(s, k))
    ensures Within(s, count, k', Step(Wide, t, l))
    ensures Counts(Reclaimed(s, k')) && Owned(Step(Wide, t, l)) == Owned(Reclaimed(s, k'))
  {
    hide Owned, Reclaimed, Slot, At;
    k' := WithinStep(s, count, k, t, l);
    if l.SeekStore? && t.pc.Released? {
      assert k' == k + 1 && k < Reclaims(s, count);
      var w := TurnBeforeStore(s, k);
      StepCounts(t, l);
      assert Step(Wide, t, l) == Store(Wide, t);
      StoreSame(t, w);
    } else {
      assert k' == k;
      StepConserved(t, l);
    }
  }

  lemma {:induction false} OvertakenOwned(s: Tx, count: nat, ks: seq<TxLabel>) returns (k: nat)
    requires Counts(s) && s.pc.Idle? && !s.repaired
    requires forall i | 0 <= i < |ks| :: WithinCall(ks[i])
    ensures var r := Run(Wide, s, [SeekStart(count)] + ks);
            Within(s, count, k, r) && Counts(Reclaimed(s, k)) && Owned(r) == Owned(Reclaimed(s, k))
    decreases |ks|
  {
    hide Owned, Slot, Step, Within, WithinCall;
    if ks == [] {
      k := WithinRun(s, count, ks);
      RunCons(Wide, s, SeekStart(count), []);
      assert [SeekStart(count)] + ks == [SeekStart(count)] + [];
      StepConserved(s, SeekStart(count));
      StartsAtZero(s, count, k);
    } else {
      var t := ks[..|ks| - 1];
      k := OvertakenOwned(s, count, t);
      assert [SeekStart(count)] + ks == ([SeekStart(count)] + t) + [ks[|ks| - 1]];
      RunSnoc(Wide, s, [SeekStart(count)] + t, ks[|ks| - 1]);
      k := WithinOwned(s, count, k, Run(Wide, s, [SeekStart(count)] + t), ks[|ks| - 1]);
    }
  }

  lemma StartsAtZero(s: Tx, count: nat, k: nat)
    requires Counts(s) && s.pc.Idle? && Within(s, count, k, Step(Wide, s, SeekStart(count)))
    ensures k == 0
  {
    hide Slot, At;
  }

  /** The same wherever the kernel runs in the call, and in whatever order it completes: a call keeps the pool if and only
      if the old descriptors that it exposes name the frames that it forgets, both as they were at its load. */
  lemma {:induction false} SeekConserves(s: Tx, count: nat, ks: seq<TxLabel>)
    requires Counts(s) && s.pc.Idle? && Conserved(s) && !s.repaired && s.avail < count && s.cProd != s.cons
    requires forall i | 0 <= i < |ks| :: WithinCall(ks[i])
    ensures var r, k := Run(Wide, s, [SeekStart(count)] + ks), Reclaims(s, count);
            && Counts(r)
            && (r.pc.Idle? ==> (Conserved(r) <==> multiset(Exposed(s, k)) == multiset(Lost(s, k))))
  {
    assert Reclaimed(s, Reclaims(s, count)).base == s.base && Reclaimed(s, Reclaims(s, count)).n == s.n;
    hide Run, Owned, Exposed, Lost, Reclaimed, WithinCall;
    var k := OvertakenOwned(s, count, ks);
    var r := Run(Wide, s, [SeekStart(count)] + ks);
    if r.pc.Idle? {
      ReclaimConserves(s, k);
      KeptPool(r, Reclaimed(s, k));
    }
  }

  // ----------------------------------------------------------------------------------------------------------------
  // An in-order kernel
  // ----------------------------------------------------------------------------------------------------------------

  /** The TX slots still name, in order, the frames that are completed, in the hand of `seek_` and in flight. */
  predicate InOrder(s: Tx)
    requires Counts(s)
  {
    && (forall k | s.cons <= k < s.kDone :: At(s.cDesc, k) == At(s.xDesc, k).addr)
    && (forall i | 0 <= i < |s.held| :: s.held[i].addr == At(s.xDesc, s.kDone + i).addr)
    && (InTransit(s) ==> s.pc.addr == At(s.xDesc, s.cons - 1).addr)
  }

  lemma StoreInOrder(s: Tx)
    requires Counts(s) && InOrder(s) && s.pc.Released? && !s.repaired && Counts(Store(Wide, s))
    ensures InOrder(Store(Wide, s))
  {
    hide Slot;
    forall k | s.cons <= k < s.kTaken
      ensures At(Store(Wide, s).xDesc, k) == At(s.xDesc, k)
    {
      SlotsApart(s.n, k, s.prod);
    }
  }

  lemma CompleteInOrder(s: Tx)
    requires Counts(s) && InOrder(s) && s.held != [] && Counts(Complete(Wide, s, 0))
    ensures InOrder(Complete(Wide, s, 0))
  {
    hide Slot;
    var r := Complete(Wide, s, 0);
    forall k | s.cons <= k < s.kDone
      ensures At(r.cDesc, k) == At(s.cDesc, k)
    {
      SlotsApart(s.n, k, s.kDone);
    }
    assert s.held[0].addr == At(s.xDesc, s.kDone + 0).addr;
    forall i | 0 <= i < |s.held| - 1
      ensures r.held[i].addr == At(s.xDesc, s.kDone + 1 + i).addr
    {
      assert r.held[i] == s.held[i + 1];
      assert s.kDone + 1 + i == s.kDone + (i + 1);
    }
  }

  lemma StepInOrder(s: Tx, l: TxLabel)
    requires Counts(s) && InOrder(s) && Fifo(l) && !s.repaired
    ensures Counts(Step(Wide, s, l)) && InOrder(Step(Wide, s, l))
  {
    hide Slot, Overwrite, OwnRegionKept, Committing, PacketOf, Without;
    StepCounts(s, l);
    if Enabled(Wide, s, l) {
      match l
      case SeekStore => StoreInOrder(s);
      case KComplete(j) => CompleteInOrder(s);
      case SetLen(i, len) =>
        assert forall k :: At(Resized(Wide, s, i, len).xDesc, k).addr == At(s.xDesc, k).addr;
      case _ =>
    }
  }

  lemma {:induction false} RunInOrder(s: Tx, tr: seq<TxLabel>)
    requires Counts(s) && InOrder(s) && !s.repaired
    requires forall l | l in tr :: Fifo(l)
    ensures Counts(Run(Wide, s, tr)) && InOrder(Run(Wide, s, tr))
    decreases |tr|
  {
    assert Shape(s);
    hide Step, Counts, InOrder;
    if tr != [] {
      RunInOrder(s, tr[..|tr| - 1]);
      StepInOrder(Run(Wide, s, tr[..|tr| - 1]), tr[|tr| - 1]);
    }
  }

  /** One store of reclaim keeps the pool if and only if nothing is available. */
  lemma StoreConservesExactly(s: Tx)
    requires Counts(s) && Conserved(s) && InOrder(s) && s.pc.Released? && !s.repaired
    ensures Counts(Store(Wide, s)) && (Conserved(Store(Wide, s)) <==> s.avail == 0)
  {
    hide Slot;
    StepCounts(s, SeekStore);
    assert Step(Wide, s, SeekStore) == Store(Wide, s);
    hide Step;
    if s.avail == 0 {
      StoreMoves(s);
    } else {
      SlotPeriod(s.n, s.cons - 1);
      SlotsApart(s.n, s.prod, s.prod + s.avail);
      assert s.cons - 1 + s.n == s.prod + s.avail;
      TwoOwners(Store(Wide, s), s.avail);
    }
  }

  predicate Intact(s: Tx) {
    Counts(s) && Conserved(s)
  }

  /** The pool is intact after every step of the run. */
  predicate AllIntact(s: Tx, tr: seq<TxLabel>)
    requires Shape(s)
    decreases |tr|
  {
    Intact(Run(Wide, s, tr)) && (tr != [] ==> AllIntact(s, tr[..|tr| - 1]))
  }

  lemma IntactStep(s: Tx, l: TxLabel)
    requires Intact(s) && InOrder(s) && !s.repaired
    ensures Intact(Step(Wide, s, l)) <==> Sparing(s, l)
  {
    hide Conserved, InOrder, Store;
    if Sparing(s, l) {
      StepConserved(s, l);
      KeptPool(s, Step(Wide, s, l));
    } else {
      StoreConservesExactly(s);
    }
  }

  lemma KeptPool(s: Tx, t: Tx)
    requires Counts(s) && Counts(t) && Owned(s) == Owned(t) && s.base == t.base && s.n == t.n
    ensures Conserved(s) <==> Conserved(t)
  {
    hide Owned;
  }

  /** In every run, whatever counts the calls use and wherever an in-order kernel runs: the pool is intact after every
      step if and only if every store was made with nothing available. */
  lemma {:induction false} PoolExactly(s: Tx, tr: seq<TxLabel>)
    requires Intact(s) && InOrder(s) && !s.repaired
    requires forall l | l in tr :: Fifo(l)
    ensures AllIntact(s, tr) <==> AllSparing(s, tr)
    decreases |tr|
  {
    assert Shape(s) && Counts(s);
    hide Step, Counts, InOrder, Intact, Sparing;
    if tr != [] {
      var t := tr[..|tr| - 1];
      PoolExactly(s, t);
      RunInOrder(s, t);
      if AllIntact(s, t) {
        IntactStep(Run(Wide, s, t), tr[|t|]);
      }
    }
  }

  /** After an in-order batch, the first and the last available descriptor name the same frame. */
  lemma BatchDuplicates(s: Tx, k: nat)
    requires Counts(s) && s.pc.Idle? && InOrder(s) && 0 < k <= s.kDone - s.cons && s.avail + k >= 2
    ensures SliceStart(Reclaimed(s, k), 0) == SliceStart(Reclaimed(s, k), s.avail + k - 1)
  {
    hide Slot;
    var j := s.cons + k - 1;
    assert s.prod + (s.avail + k - 1) == j + s.n;
    SlotPeriod(s.n, j);
    SlotsApart(s.n, s.prod, s.prod + (s.avail + k - 1));
    assert At(s.cDesc, j) == At(s.xDesc, j).addr;
  }

  /** A pool where two available descriptors name one frame is not intact. */
  lemma TwoOwners(r: Tx, i: nat)
    requires Counts(r) && 0 < i < r.avail && SliceStart(r, 0) == SliceStart(r, i)
    ensures !Conserved(r)
  {
    if Conserved(r) {
      TxOwner(r, r.prod);
      TxOwner(r, r.prod + i);
      OwnersDiffer(r);
    }
  }

  /** With an in-order kernel, after every run that spared the available descriptors from a safe state such as the
      initial one, a call of `seek_(count)` that reclaims something keeps every frame exactly once if and only if at its
      load nothing was available and it reclaims a single frame, wherever the kernel runs in the call. */
  lemma {:induction false} SeekConservesExactly(s0: Tx, tr: seq<TxLabel>, count: nat, ks: seq<TxLabel>)
    requires Safe(s0) && InOrder(s0) && !s0.repaired
    requires AllSparing(s0, tr) && forall l | l in tr :: Fifo(l)
    requires var s := Run(Wide, s0, tr);
             s.pc.Idle? && s.avail < count && s.cProd != s.cons
    requires forall i | 0 <= i < |ks| :: WithinCall(ks[i])
    ensures var s := Run(Wide, s0, tr);
            var r := Run(Wide, s, [SeekStart(count)] + ks);
            && Counts(s) && Conserved(s) && Counts(r)
            && (r.pc.Idle? ==> (Conserved(r) <==> s.avail == 0 && Min(count, s.cProd - s.cons) == 1))
  {
    hide Run, Step, Faithful, Addressed, InOrder, Conserved, AllSparing;
    TxSafety(s0, tr);
    RunInOrder(s0, tr);
    ConservesExactly(Run(Wide, s0, tr), count, ks);
  }

  lemma ConservesExactly(s: Tx, count: nat, ks: seq<TxLabel>)
    requires Counts(s) && s.pc.Idle? && Conserved(s) && InOrder(s) && !s.repaired
    requires s.avail < count && s.cProd != s.cons
    requires forall i | 0 <= i < |ks| :: WithinCall(ks[i])
    ensures var r := Run(Wide, s, [SeekStart(count)] + ks);
            Counts(r) && (r.pc.Idle? ==> (Conserved(r) <==> s.avail == 0 && Min(count, s.cProd - s.cons) == 1))
  {
    var r, k := Run(Wide, s, [SeekStart(count)] + ks), Reclaims(s, count);
    SeekOvertaken(s, count, ks);
    hide Run, Step, Conserved, InOrder, Reclaimed, WithinCall;
    if r.pc.Idle? {
      if s.avail == 0 && k == 1 {
        OneStoreSpares(s, count, ks);
      } else {
        BatchBreaks(s, k, r);
      }
    }
  }

  lemma BatchBreaks(s: Tx, k: nat, r: Tx)
    requires Counts(s) && s.pc.Idle? && InOrder(s) && 0 < k <= s.kDone - s.cons && s.avail + k >= 2
    requires Counts(r) && r.n == s.n && SocketSide(r) == SocketSide(Reclaimed(s, k))
    ensures !Conserved(r)
  {
    hide Slot;
    BatchDuplicates(s, k);
    TwoOwners(r, s.avail + k - 1);
  }

  /** A call that reclaims a single frame into an empty pool keeps every frame, wherever the kernel runs in it. */
  lemma {:induction false} OneStoreSpares(s: Tx, count: nat, ks: seq<TxLabel>)
    requires Counts(s) && s.pc.Idle? && Conserved(s) && !s.repaired && s.avail == 0 && Reclaims(s, count) == 1
    requires forall i | 0 <= i < |ks| :: WithinCall(ks[i])
    ensures Intact(Run(Wide, s, [SeekStart(count)] + ks))
    decreases |ks|
  {
    hide Step, Slot, Conserved;
    if ks == [] {
      RunCons(Wide, s, SeekStart(count), []);
      assert [SeekStart(count)] + ks == [SeekStart(count)] + [];
      StepConserved(s, SeekStart(count));
      KeptPool(s, Step(Wide, s, SeekStart(count)));
    } else {
      var t, l := ks[..|ks| - 1], ks[|ks| - 1];
      OneStoreSpares(s, count, t);
      var r := Run(Wide, s, [SeekStart(count)] + t);
      var k := WithinRun(s, count, t);
      assert [SeekStart(count)] + ks == ([SeekStart(count)] + t) + [l];
      RunSnoc(Wide, s, [SeekStart(count)] + t, l);
      hide Run;
      StepConserved(r, l);
      KeptPool(r, Step(Wide, r, l));
    }
  }

  /** The batch calls of the documentation do break the pool: for every pool of at least two frames there is a run
      that commits all frames, lets the kernel send them in order, and calls `seek_n(2)`; it leaves two available
      descriptors on one frame. */
  lemma {:induction false} SeekTwoDuplicates(n: nat, base: nat, stale: seq<nat>, umem: seq<byte>)
    returns (tr: seq<TxLabel>)
    requires Pooled(n, base, stale, umem) && n >= 2
    ensures tr != [] && tr[0] == Commit(n) && forall l | l in tr[1..] :: IsKernel(l) && Fifo(l)
    ensures var s := Run(Wide, Init(n, base, false, stale, umem), tr);
            var r := Run(Wide, s, [SeekStart(2)] + Rounds(2));
            r.pc.Idle? && r.avail == 2 && SliceStart(r, 0) == SliceStart(r, 1)
  {
    var s0 := Init(n, base, false, stale, umem);
    InitSafe(n, base, false, stale, umem);
    assert InOrder(s0);
    var s;
    tr, s := SendAll(s0);
    hide Init, Run, Step, Counts;
    SeekTwo(s);
  }

  lemma SeekTwo(s: Tx)
    requires Counts(s) && s.pc.Idle? && InOrder(s) && !s.repaired && s.avail == 0 && s.cProd - s.cons >= 2
    ensures var r := Run(Wide, s, [SeekStart(2)] + Rounds(2));
            r.pc.Idle? && r.avail == 2 && SliceStart(r, 0) == SliceStart(r, 1)
  {
    SeekCall(s, 2);
    hide Run, Step, Rounds;
    BatchDuplicates(s, 2);
  }

  lemma SendAll(s0: Tx) returns (tr: seq<TxLabel>, s: Tx)
    requires Counts(s0) && InOrder(s0) && s0.pc.Idle? && !s0.repaired && s0.avail == s0.n >= 2
    ensures tr != [] && tr[0] == Commit(s0.n) && forall l | l in tr[1..] :: IsKernel(l) && Fifo(l)
    ensures s == Run(Wide, s0, tr) && Counts(s) && InOrder(s) && s.pc.Idle? && !s.repaired
    ensures s.avail == 0 && s.cProd - s.cons == s.n == s0.n
  {
    var s1 := Step(Wide, s0, Commit(s0.n));
    StepCounts(s0, Commit(s0.n));
    assert s1.pc.Idle? && s1.avail == 0 && !s1.repaired;
    hide Step, Slot;
    var ks := CapacityReturns(s1);
    tr := [Commit(s0.n)] + ks;
    RunCons(Wide, s0, Commit(s0.n), ks);
    s := Run(Wide, s0, tr);
    RunInOrder(s0, tr);
  }

  /** Writing the reclaimed descriptor after the available ones repairs it: then every run keeps every frame exactly
      once and every packet intact, whatever counts the calls use. */
  lemma {:induction false} RepairedIsSafe(n: nat, base: nat, stale: seq<nat>, umem: seq<byte>, tr: seq<TxLabel>)
    requires Pooled(n, base, stale, umem)
    ensures Safe(Run(Wide, Init(n, base, true, stale, umem), tr))
  {
    InitSafe(n, base, true, stale, umem);
    RepairedSpares(Init(n, base, true, stale, umem), tr);
    TxSafety(Init(n, base, true, stale, umem), tr);
  }

  lemma {:induction false} RepairedSpares(s: Tx, tr: seq<TxLabel>)
    requires Shape(s) && s.repaired
    ensures AllSparing(s, tr)
    decreases |tr|
  {
    if tr != [] {
      RepairedSpares(s, tr[..|tr| - 1]);
    }
  }
}
