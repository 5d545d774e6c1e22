/** Sync-committee periods of a window and the per-slot participation tally, whose slot
    answers arrive in any completion order. */
module Sync {
  import opened Common
  import opened Quotients

  /** The window's epochs, and the two chain constants the arithmetic needs. */
  datatype Span = Span(fromEpoch: nat, toEpoch: nat, slotsPerEpoch: nat, epochsPerPeriod: nat)

  predicate Sane(w: Span) {
    w.fromEpoch <= w.toEpoch && 1 <= w.slotsPerEpoch && 1 <= w.epochsPerPeriod
  }

  // ----- periods -----

  function Range(lo: nat, hi: nat): (r: seq<nat>)
    ensures |r| == if lo < hi then hi - lo else 0
    ensures forall k :: 0 <= k < |r| ==> r[k] == lo + k
    decreases hi - lo
  {
    if lo < hi then [lo] + Range(lo + 1, hi) else []
  }

  function SyncPeriods(w: Span): seq<nat>
    requires Sane(w)
  {
    Range(w.fromEpoch / w.epochsPerPeriod, w.toEpoch / w.epochsPerPeriod + 1)
  }

  function QueryEpoch(w: Span, period: nat): nat {
    Max(w.fromEpoch, period * w.epochsPerPeriod)
  }

  function PeriodOfSlot(w: Span, slot: nat): nat
    requires Sane(w)
  {
    (slot / w.slotsPerEpoch) / w.epochsPerPeriod
  }

  function ScanSlots(w: Span): seq<nat> {
    Range(w.fromEpoch * w.slotsPerEpoch, (w.toEpoch + 1) * w.slotsPerEpoch)
  }

  /** The epoch whose state is asked for a period lies in the window and in that period. */
  lemma QueryEpochInWindowAndPeriod(w: Span, period: nat)
    requires Sane(w) && period in SyncPeriods(w)
    ensures w.fromEpoch <= QueryEpoch(w, period) <= w.toEpoch
    ensures QueryEpoch(w, period) / w.epochsPerPeriod == period
  {
    var n := w.epochsPerPeriod;
    MultipleReached(period, n, w.toEpoch);
    MultipleReached(period, n, QueryEpoch(w, period));
    assert (period + 1) * n == period * n + n;
    MultipleReached(period + 1, n, QueryEpoch(w, period));
    MultipleReached(period + 1, n, w.fromEpoch);
  }

  lemma EpochOfScannedSlot(w: Span, slot: nat)
    requires Sane(w) && w.fromEpoch * w.slotsPerEpoch <= slot < (w.toEpoch + 1) * w.slotsPerEpoch
    ensures w.fromEpoch <= slot / w.slotsPerEpoch <= w.toEpoch
  {
    MultipleReached(w.fromEpoch, w.slotsPerEpoch, slot);
    MultipleReached(w.toEpoch + 1, w.slotsPerEpoch, slot);
  }

  lemma QuotientMonotone(x: nat, y: nat, d: nat)
    requires 1 <= d && x <= y
    ensures x / d <= y / d
  {
    MultipleReached(x / d, d, x);
    MultipleReached(x / d, d, y);
  }

  /** Every scanned slot falls into a period that was asked for. */
  lemma PeriodsCoverScan(w: Span, slot: nat)
    requires Sane(w) && slot in ScanSlots(w)
    ensures PeriodOfSlot(w, slot) in SyncPeriods(w)
  {
    EpochOfScannedSlot(w, slot);
    var lo, p := w.fromEpoch / w.epochsPerPeriod, PeriodOfSlot(w, slot);
    QuotientMonotone(w.fromEpoch, slot / w.slotsPerEpoch, w.epochsPerPeriod);
    QuotientMonotone(slot / w.slotsPerEpoch, w.toEpoch, w.epochsPerPeriod);
    assert SyncPeriods(w)[p - lo] == p;
  }

  // ----- the tally -----

  datatype RewardRow = RewardRow(index: nat, reward: int)

  /** A slot's answer: reward rows, nothing usable (404, no content, no list), or an error. */
  datatype SlotAnswer = Rows(rows: seq<RewardRow>) | NoRows | Failed

  datatype Counts = Counts(eligible: nat, signed: nat, reward: int)

  function Plus(a: Counts, b: Counts): Counts {
    Counts(a.eligible + b.eligible, a.signed + b.signed, a.reward + b.reward)
  }

  /** The committee members of interest at each slot, and each slot's answer. */
  datatype Scan = Scan(members: nat -> set<nat>, answer: nat -> SlotAnswer)

  /** The last reward a row list gives for `index`. */
  function LastReward(rows: seq<RewardRow>, index: nat): Option<int> {
    if rows == [] then None
    else
      var last := rows[|rows| - 1];
      if last.index == index then Some(last.reward) else LastReward(rows[..|rows| - 1], index)
  }

  /** What one slot adds to one validator's counts. */
  function Contribution(s: Scan, slot: nat, index: nat): Counts {
    if index !in s.members(slot) || !s.answer(slot).Rows? then Counts(0, 0, 0)
    else
      match LastReward(s.answer(slot).rows, index)
      case None => Counts(1, 0, 0)
      case Some(r) => Counts(1, if r > 0 then 1 else 0, r)
  }

  function At(s: Scan, index: nat): nat -> Counts {
    (slot: nat) => Contribution(s, slot, index)
  }

  function Sum(f: nat -> Counts, order: seq<nat>): Counts {
    if order == [] then Counts(0, 0, 0)
    else Plus(Sum(f, order[..|order| - 1]), f(order[|order| - 1]))
  }

  method RewardsByIndex(rows: seq<RewardRow>, members: set<nat>) returns (byIndex: map<nat, int>)
    ensures forall i :: i in byIndex <==> i in members && LastReward(rows, i).Some?
    ensures forall i :: i in byIndex ==> LastReward(rows, i) == Some(byIndex[i])
  {
    byIndex := map[];
    for k := 0 to |rows|
      invariant forall i :: i in byIndex <==> i in members && LastReward(rows[..k], i).Some?
      invariant forall i :: i in byIndex ==> LastReward(rows[..k], i) == Some(byIndex[i])
    {
      assert rows[..k + 1][..k] == rows[..k];
      if rows[k].index in members { byIndex := byIndex[rows[k].index := rows[k].reward]; }
    }
    assert rows[..|rows|] == rows;
  }

  /** One member's counts after a slot whose rows gave it `reward`, if any. */
  function Credited(c: Counts, reward: Option<int>): Counts {
    match reward
    case None => c.(eligible := c.eligible + 1)
    case Some(r) => Counts(c.eligible + 1, c.signed + (if r > 0 then 1 else 0), c.reward + r)
  }

  lemma {:induction false} CreditedIsContribution(s: Scan, slot: nat, index: nat, c: Counts)
    requires s.answer(slot).Rows? && index in s.members(slot)
    ensures Credited(c, LastReward(s.answer(slot).rows, index)) == Plus(c, At(s, index)(slot))
  {
  }

  /** Credit every member of a slot, in any order of the set. */
  method CreditMembers(rows: seq<RewardRow>, members: set<nat>, tally: map<nat, Counts>) returns (out: map<nat, Counts>)
    requires members <= tally.Keys
    ensures out.Keys == tally.Keys
    ensures forall i :: i in tally ==> out[i] == if i in members then Credited(tally[i], LastReward(rows, i)) else tally[i]
  {
    var byIndex := RewardsByIndex(rows, members);
    out := tally;
    var rest := members;
    while rest != {}
      invariant rest <= members && out.Keys == tally.Keys
      invariant forall i :: i in tally && (i !in members || i in rest) ==> out[i] == tally[i]
      invariant forall i :: i in members && i !in rest ==> out[i] == Credited(tally[i], LastReward(rows, i))
      decreases |rest|
    {
      var i :| i in rest;
      rest := rest - {i};
      out := out[i := Credited(out[i], if i in byIndex then Some(byIndex[i]) else None)];
    }
  }

  /** Fold one slot's answer into the tally. */
  method AddSlot(s: Scan, slot: nat, tally: map<nat, Counts>) returns (out: map<nat, Counts>)
    requires !s.answer(slot).Failed? && s.members(slot) <= tally.Keys
    ensures out.Keys == tally.Keys
    ensures forall i :: i in tally ==> out[i] == Plus(tally[i], At(s, i)(slot))
  {
    var members, answer := s.members(slot), s.answer(slot);
    if members == {} || answer.NoRows? { return tally; }
    out := CreditMembers(answer.rows, members, tally);
    forall i | i in tally
      ensures out[i] == Plus(tally[i], At(s, i)(slot))
    {
      if i in members { CreditedIsContribution(s, slot, i, tally[i]); }
    }
  }

  lemma SumSnoc(f: nat -> Counts, order: seq<nat>, k: nat)
    requires k < |order|
    ensures Sum(f, order[..k + 1]) == Plus(Sum(f, order[..k]), f(order[k]))
  {
    assert order[..k + 1][..k] == order[..k];
  }

  /** Accumulate the slots in completion order; one failed slot fails the collection. */
  method CollectSlots(s: Scan, order: seq<nat>, members: set<nat>) returns (r: Result<map<nat, Counts>, nat>)
    requires forall slot :: s.members(slot) <= members
    ensures r.Err? <==> exists k :: 0 <= k < |order| && s.answer(order[k]).Failed?
    ensures r.Ok? ==> r.value.Keys == members
    ensures r.Ok? ==> forall i :: i in members ==> r.value[i] == Sum(At(s, i), order)
  {
    var tally: map<nat, Counts> := map i | i in members :: Counts(0, 0, 0);
    for k := 0 to |order|
      invariant forall j :: 0 <= j < k ==> !s.answer(order[j]).Failed?
      invariant tally.Keys == members
      invariant forall i :: i in members ==> tally[i] == Sum(At(s, i), order[..k])
    {
      if s.answer(order[k]).Failed? { return Err(order[k]); }
      var out := AddSlot(s, order[k], tally);
      forall i | i in members
        ensures out[i] == Sum(At(s, i), order[..k + 1])
      {
        SumSnoc(At(s, i), order, k);
      }
      tally := out;
    }
    assert order[..|order|] == order;
    r := Ok(tally);
  }

  // ----- order independence -----

  lemma {:induction false} SumWithout(f: nat -> Counts, order: seq<nat>, j: nat)
    requires j < |order|
    ensures Sum(f, order) == Plus(Sum(f, order[..j] + order[j + 1..]), f(order[j]))
    decreases |order|
  {
    var n := |order| - 1;
    var less := order[..j] + order[j + 1..];
    if j == n {
      assert less == order[..n];
    } else {
      SumWithout(f, order[..n], j);
      assert less[..n - 1] == order[..n][..j] + order[..n][j + 1..];
      assert less[n - 1] == order[n];
    }
  }

  lemma RemoveOne(order: seq<nat>, j: nat)
    requires j < |order|
    ensures multiset(order[..j] + order[j + 1..]) == multiset(order) - multiset{order[j]}
  {
    assert order == order[..j] + [order[j]] + order[j + 1..];
  }

  lemma Position(a: seq<nat>, b: seq<nat>) returns (j: nat)
    requires a != [] && multiset(a) == multiset(b)
    ensures j < |b| && b[j] == a[|a| - 1]
  {
    assert a[|a| - 1] in multiset(a);
    j :| 0 <= j < |b| && b[j] == a[|a| - 1];
  }

  /** Any two orders of the same slots sum alike. */
  lemma {:induction false} OrderDoesNotMatter(f: nat -> Counts, a: seq<nat>, b: seq<nat>)
    requires multiset(a) == multiset(b)
    ensures Sum(f, a) == Sum(f, b)
    decreases |a|
  {
    if a == [] {
      assert |multiset(b)| == 0;
      assert b == [];
    } else {
      var n := |a| - 1;
      var j := Position(a, b);
      RemoveOne(a, n);
      RemoveOne(b, j);
      assert a[..n] + a[n + 1..] == a[..n];
      SumWithout(f, b, j);
      OrderDoesNotMatter(f, a[..n], b[..j] + b[j + 1..]);
    }
  }

  // ----- bounds -----

  function Count(p: nat -> bool, slots: seq<nat>): nat {
    if slots == [] then 0 else Count(p, slots[..|slots| - 1]) + (if p(slots[|slots| - 1]) then 1 else 0)
  }

  lemma {:induction false} SumBounds(f: nat -> Counts, p: nat -> bool, slots: seq<nat>)
    requires forall x :: f(x).signed <= f(x).eligible <= if p(x) then 1 else 0
    ensures Sum(f, slots).signed <= Sum(f, slots).eligible <= Count(p, slots)
    decreases |slots|
  {
    if slots != [] { SumBounds(f, p, slots[..|slots| - 1]); }
  }

  predicate Member(s: Scan, index: nat, slot: nat) {
    index in s.members(slot)
  }

  function MemberAt(s: Scan, index: nat): nat -> bool {
    (slot: nat) => Member(s, index, slot)
  }

  /** Whatever order the slot futures complete in, a validator's result is that of any other
      order, and signed <= eligible <= the slots at which it is a member. */
  lemma {:induction false} CompletionOrderIrrelevantAndBounded(s: Scan, order: seq<nat>, slots: seq<nat>, index: nat)
    requires multiset(order) == multiset(slots)
    ensures Sum(At(s, index), order) == Sum(At(s, index), slots)
    ensures Sum(At(s, index), order).signed <= Sum(At(s, index), order).eligible <= Count(MemberAt(s, index), slots)
  {
    OrderDoesNotMatter(At(s, index), order, slots);
    SumBounds(At(s, index), MemberAt(s, index), slots);
  }

  // ----- the whole collection -----

  /** What is asked of the chain: the sync committee of a period, if it can be had, and the
      answer of each slot, for the validators in `ours`. */
  datatype Chain = Chain(committee: nat -> Option<set<nat>>, answer: nat -> SlotAnswer, ours: set<nat>)

  datatype SyncOutcome = SyncOutcome(inCommittee: bool, counts: Counts)

  const BLANK := SyncOutcome(false, Counts(0, 0, 0))

  function MembersOf(c: Chain, period: nat): set<nat> {
    if c.committee(period).Some? then c.committee(period).value * c.ours else {}
  }

  predicate PeriodFailed(c: Chain, periods: seq<nat>) {
    exists k :: 0 <= k < |periods| && c.committee(periods[k]).None?
  }

  function AllMembers(c: Chain, periods: seq<nat>): set<nat> {
    if periods == [] then {} else AllMembers(c, periods[..|periods| - 1]) + MembersOf(c, periods[|periods| - 1])
  }

  /** Each slot's members, from its period alone. */
  function ScanOf(w: Span, c: Chain): Scan
    requires Sane(w)
  {
    Scan((slot: nat) => MembersOf(c, PeriodOfSlot(w, slot)), c.answer)
  }

  lemma {:induction false} AllMembersAre(c: Chain, periods: seq<nat>, i: nat)
    ensures i in AllMembers(c, periods) <==> exists k :: 0 <= k < |periods| && i in MembersOf(c, periods[k])
    decreases |periods|
  {
    if periods != [] {
      var n := |periods| - 1;
      AllMembersAre(c, periods[..n], i);
      if i in AllMembers(c, periods[..n]) {
        var k :| 0 <= k < n && i in MembersOf(c, periods[..n][k]);
        assert i in MembersOf(c, periods[k]);
      }
      forall k | 0 <= k < |periods| && i in MembersOf(c, periods[k])
        ensures i in AllMembers(c, periods)
      {
        if k < n { assert i in MembersOf(c, periods[..n][k]); }
      }
    }
  }

  lemma SameElement(a: seq<nat>, b: seq<nat>, k: nat) returns (j: nat)
    requires multiset(a) == multiset(b) && k < |a|
    ensures j < |b| && b[j] == a[k]
  {
    assert a[k] in multiset(a);
    j :| 0 <= j < |b| && b[j] == a[k];
  }

  lemma {:induction false} AllMembersOfReordered(c: Chain, a: seq<nat>, b: seq<nat>, i: nat)
    requires multiset(a) == multiset(b) && i in AllMembers(c, a)
    ensures i in AllMembers(c, b)
  {
    AllMembersAre(c, a, i);
    var k :| 0 <= k < |a| && i in MembersOf(c, a[k]);
    var j := SameElement(a, b, k);
    AllMembersAre(c, b, i);
  }

  lemma PeriodFailedReordered(c: Chain, a: seq<nat>, b: seq<nat>)
    requires multiset(a) == multiset(b) && PeriodFailed(c, a)
    ensures PeriodFailed(c, b)
  {
    var k :| 0 <= k < |a| && c.committee(a[k]).None?;
    var j := SameElement(a, b, k);
  }

  method CollectMembers(c: Chain, order: seq<nat>) returns (byPeriod: map<nat, set<nat>>, members: set<nat>, failed: bool)
    ensures failed == PeriodFailed(c, order)
    ensures forall k :: 0 <= k < |order| && c.committee(order[k]).Some? ==> order[k] in byPeriod
    ensures forall p :: p in byPeriod ==> byPeriod[p] == MembersOf(c, p)
    ensures members == AllMembers(c, order)
    ensures forall p :: p in byPeriod ==> byPeriod[p] <= members
  {
    byPeriod, members, failed := map[], {}, false;
    for k := 0 to |order|
      invariant failed <==> exists j :: 0 <= j < k && c.committee(order[j]).None?
      invariant forall j :: 0 <= j < k && c.committee(order[j]).Some? ==> order[j] in byPeriod
      invariant forall p :: p in byPeriod ==> byPeriod[p] == MembersOf(c, p) && byPeriod[p] <= members
      invariant members == AllMembers(c, order[..k])
    {
      assert order[..k + 1][..k] == order[..k];
      match c.committee(order[k])
      case None => failed := true;
      case Some(committee) =>
        byPeriod := byPeriod[order[k] := committee * c.ours];
        members := members + committee * c.ours;
    }
    assert order[..|order|] == order;
  }

  lemma {:induction false} SumCongruent(f: nat -> Counts, g: nat -> Counts, order: seq<nat>)
    requires forall k :: 0 <= k < |order| ==> f(order[k]) == g(order[k])
    ensures Sum(f, order) == Sum(g, order)
    decreases |order|
  {
    if order != [] { SumCongruent(f, g, order[..|order| - 1]); }
  }

  /** What the collection returns for one validator, with no mention of any order. */
  function Expected(w: Span, c: Chain, i: nat): SyncOutcome
    requires Sane(w)
  {
    if PeriodFailed(c, SyncPeriods(w)) || i !in AllMembers(c, SyncPeriods(w)) then BLANK
    else SyncOutcome(true, Sum(At(ScanOf(w, c), i), ScanSlots(w)))
  }

  lemma {:induction false} SameSum(w: Span, c: Chain, s: Scan, order: seq<nat>, i: nat)
    requires Sane(w) && multiset(order) == multiset(ScanSlots(w)) && s.answer == c.answer
    requires forall k :: 0 <= k < |order| ==> s.members(order[k]) == MembersOf(c, PeriodOfSlot(w, order[k]))
    ensures Sum(At(s, i), order) == Sum(At(ScanOf(w, c), i), ScanSlots(w))
  {
    SumCongruent(At(s, i), At(ScanOf(w, c), i), order);
    OrderDoesNotMatter(At(ScanOf(w, c), i), order, ScanSlots(w));
  }

  function MembersAt(w: Span, byPeriod: map<nat, set<nat>>): nat -> set<nat>
    requires Sane(w)
  {
    (slot: nat) => if PeriodOfSlot(w, slot) in byPeriod then byPeriod[PeriodOfSlot(w, slot)] else {}
  }

  lemma PeriodsWereAsked(w: Span, c: Chain, byPeriod: map<nat, set<nat>>, periodOrder: seq<nat>, slot: nat)
    requires Sane(w) && multiset(periodOrder) == multiset(SyncPeriods(w)) && !PeriodFailed(c, periodOrder)
    requires forall k :: 0 <= k < |periodOrder| && c.committee(periodOrder[k]).Some? ==> periodOrder[k] in byPeriod
    requires forall p :: p in byPeriod ==> byPeriod[p] == MembersOf(c, p)
    requires slot in ScanSlots(w)
    ensures MembersAt(w, byPeriod)(slot) == MembersOf(c, PeriodOfSlot(w, slot))
  {
    PeriodsCoverScan(w, slot);
    var j :| 0 <= j < |SyncPeriods(w)| && SyncPeriods(w)[j] == PeriodOfSlot(w, slot);
    var k := SameElement(SyncPeriods(w), periodOrder, j);
    assert c.committee(periodOrder[k]).Some?;
  }

  lemma {:induction false} PeriodOrderIrrelevant(w: Span, c: Chain, periodOrder: seq<nat>)
    requires Sane(w) && multiset(periodOrder) == multiset(SyncPeriods(w))
    ensures PeriodFailed(c, periodOrder) <==> PeriodFailed(c, SyncPeriods(w))
    ensures AllMembers(c, periodOrder) == AllMembers(c, SyncPeriods(w))
  {
    var periods := SyncPeriods(w);
    if PeriodFailed(c, periodOrder) { PeriodFailedReordered(c, periodOrder, periods); }
    if PeriodFailed(c, periods) { PeriodFailedReordered(c, periods, periodOrder); }
    forall i
      ensures i in AllMembers(c, periodOrder) <==> i in AllMembers(c, periods)
    {
      if i in AllMembers(c, periodOrder) { AllMembersOfReordered(c, periodOrder, periods, i); }
      if i in AllMembers(c, periods) { AllMembersOfReordered(c, periods, periodOrder, i); }
    }
  }

  predicate SlotFailed(c: Chain, slots: seq<nat>) {
    exists k :: 0 <= k < |slots| && c.answer(slots[k]).Failed?
  }

  lemma SlotFailedReordered(c: Chain, a: seq<nat>, b: seq<nat>)
    requires multiset(a) == multiset(b) && SlotFailed(c, a)
    ensures SlotFailed(c, b)
  {
    var k :| 0 <= k < |a| && c.answer(a[k]).Failed?;
    var j := SameElement(a, b, k);
  }

  lemma SlotOrderIrrelevant(c: Chain, a: seq<nat>, b: seq<nat>)
    requires multiset(a) == multiset(b)
    ensures SlotFailed(c, a) <==> SlotFailed(c, b)
  {
    if SlotFailed(c, a) { SlotFailedReordered(c, a, b); }
    if SlotFailed(c, b) { SlotFailedReordered(c, b, a); }
  }

  lemma {:induction false} TallyIsExpected(w: Span, c: Chain, byPeriod: map<nat, set<nat>>, periodOrder: seq<nat>, slotOrder: seq<nat>, i: nat)
    requires Sane(w) && multiset(periodOrder) == multiset(SyncPeriods(w)) && !PeriodFailed(c, periodOrder)
    requires forall k :: 0 <= k < |periodOrder| && c.committee(periodOrder[k]).Some? ==> periodOrder[k] in byPeriod
    requires forall p :: p in byPeriod ==> byPeriod[p] == MembersOf(c, p)
    requires multiset(slotOrder) == multiset(ScanSlots(w))
    ensures Sum(At(Scan(MembersAt(w, byPeriod), c.answer), i), slotOrder) == Sum(At(ScanOf(w, c), i), ScanSlots(w))
  {
    var s := Scan(MembersAt(w, byPeriod), c.answer);
    forall k | 0 <= k < |slotOrder|
      ensures s.members(slotOrder[k]) == MembersOf(c, PeriodOfSlot(w, slotOrder[k]))
    {
      var j := SameElement(slotOrder, ScanSlots(w), k);
      PeriodsWereAsked(w, c, byPeriod, periodOrder, slotOrder[k]);
    }
    SameSum(w, c, s, slotOrder, i);
  }

  /** The per-slot scan, once every period's members are known. */
  method ScanWindow(w: Span, c: Chain, byPeriod: map<nat, set<nat>>, members: set<nat>,
                    ghost periodOrder: seq<nat>, slotOrder: seq<nat>)
    returns (r: Result<map<nat, Counts>, nat>)
    requires Sane(w) && multiset(periodOrder) == multiset(SyncPeriods(w)) && !PeriodFailed(c, periodOrder)
    requires forall k :: 0 <= k < |periodOrder| && c.committee(periodOrder[k]).Some? ==> periodOrder[k] in byPeriod
    requires forall p :: p in byPeriod ==> byPeriod[p] == MembersOf(c, p) && byPeriod[p] <= members
    requires multiset(slotOrder) == multiset(ScanSlots(w))
    ensures r.Err? <==> SlotFailed(c, ScanSlots(w))
    ensures r.Ok? ==> r.value.Keys == members
    ensures r.Ok? ==> forall i :: i in members ==> r.value[i] == Sum(At(ScanOf(w, c), i), ScanSlots(w))
  {
    r := CollectSlots(Scan(MembersAt(w, byPeriod), c.answer), slotOrder, members);
    SlotOrderIrrelevant(c, slotOrder, ScanSlots(w));
    if r.Ok? {
      forall i | i in members
        ensures r.value[i] == Sum(At(ScanOf(w, c), i), ScanSlots(w))
      {
        TallyIsExpected(w, c, byPeriod, periodOrder, slotOrder, i);
      }
    }
  }

  /** The collection, with committee and slot futures completing in any two orders: its
      result mentions neither, and it fails exactly when a scan was due and a slot failed. */
  method CollectSync(w: Span, c: Chain, periodOrder: seq<nat>, slotOrder: seq<nat>)
    returns (r: Result<map<nat, SyncOutcome>, nat>)
    requires Sane(w) && multiset(periodOrder) == multiset(SyncPeriods(w))
    requires multiset(slotOrder) == multiset(ScanSlots(w))
    ensures r.Err? <==>
            && !PeriodFailed(c, SyncPeriods(w)) && AllMembers(c, SyncPeriods(w)) != {}
            && SlotFailed(c, ScanSlots(w))
    ensures r.Ok? ==> r.value.Keys == c.ours
    ensures r.Ok? ==> forall i :: i in c.ours ==> r.value[i] == Expected(w, c, i)
  {
    var byPeriod, members, failed := CollectMembers(c, periodOrder);
    PeriodOrderIrrelevant(w, c, periodOrder);
    if failed || members == {} {
      return Ok(map i | i in c.ours :: BLANK);
    }
    var t := ScanWindow(w, c, byPeriod, members, periodOrder, slotOrder);
    if t.Err? { return Err(t.error); }
    r := Ok(map i | i in c.ours :: if i in members then SyncOutcome(true, t.value[i]) else BLANK);
  }

  // ----- what the counts mean -----

  /** Row `k` is the last of `rows` for `index`. */
  ghost predicate LastFor(rows: seq<RewardRow>, index: nat, k: int) {
    0 <= k < |rows| && rows[k].index == index && forall j :: k < j < |rows| ==> rows[j].index != index
  }

  /** The slot's answer holds rows, and the validator is one of ours in the committee of the
      slot's period. */
  predicate EligibleAt(w: Span, c: Chain, i: nat, slot: nat)
    requires Sane(w)
  {
    var committee := c.committee((slot / w.slotsPerEpoch) / w.epochsPerPeriod);
    i in c.ours && committee.Some? && i in committee.value && c.answer(slot).Rows?
  }

  /** The last row for the validator pays it. */
  ghost predicate SignedAt(w: Span, c: Chain, i: nat, slot: nat)
    requires Sane(w)
  {
    EligibleAt(w, c, i, slot) && exists k :: LastFor(c.answer(slot).rows, i, k) && 0 < c.answer(slot).rows[k].reward
  }

  /** What the last row for the validator pays it, if it has one. */
  ghost function PaidAt(w: Span, c: Chain, i: nat, slot: nat): int
    requires Sane(w)
  {
    if EligibleAt(w, c, i, slot) && exists k :: LastFor(c.answer(slot).rows, i, k)
    then (var k :| LastFor(c.answer(slot).rows, i, k); c.answer(slot).rows[k].reward) else 0
  }

  function Total(f: nat -> int, slots: seq<nat>): int {
    if slots == [] then 0 else Total(f, slots[..|slots| - 1]) + f(slots[|slots| - 1])
  }

  lemma {:induction false} LastRewardIs(rows: seq<RewardRow>, index: nat)
    ensures LastReward(rows, index).None? ==> forall k :: !LastFor(rows, index, k)
    ensures LastReward(rows, index).Some? ==>
            exists k :: LastFor(rows, index, k) && LastReward(rows, index) == Some(rows[k].reward)
    decreases |rows|
  {
    if rows != [] {
      var n := |rows| - 1;
      LastRewardIs(rows[..n], index);
      if rows[n].index == index {
        assert LastFor(rows, index, n);
      } else if LastReward(rows[..n], index).Some? {
        var k :| LastFor(rows[..n], index, k) && LastReward(rows[..n], index) == Some(rows[..n][k].reward);
        assert rows[k] == rows[..n][k] && LastFor(rows, index, k);
      } else {
        forall k | 0 <= k < |rows|
          ensures !LastFor(rows, index, k)
        {
          assert k < n ==> !LastFor(rows[..n], index, k) && rows[..n][k] == rows[k];
        }
      }
    }
  }

  /** What one slot adds, told from the slot's answer and its period's committee alone. */
  lemma SlotAdds(w: Span, c: Chain, i: nat, slot: nat)
    requires Sane(w)
    ensures Contribution(ScanOf(w, c), slot, i)
            == Counts(if EligibleAt(w, c, i, slot) then 1 else 0, if SignedAt(w, c, i, slot) then 1 else 0, PaidAt(w, c, i, slot))
  {
    if EligibleAt(w, c, i, slot) {
      var rows := c.answer(slot).rows;
      LastRewardIs(rows, i);
      forall j, k | LastFor(rows, i, j) && LastFor(rows, i, k)
        ensures j == k
      {
      }
    }
  }

  lemma {:induction false} SumIsCounts(f: nat -> Counts, eligible: nat -> bool, signed: nat -> bool, paid: nat -> int,
                                       slots: seq<nat>)
    requires forall x :: f(x) == Counts(if eligible(x) then 1 else 0, if signed(x) then 1 else 0, paid(x))
    ensures Sum(f, slots) == Counts(Count(eligible, slots), Count(signed, slots), Total(paid, slots))
    decreases |slots|
  {
    if slots != [] { SumIsCounts(f, eligible, signed, paid, slots[..|slots| - 1]); }
  }

  /** The result of the collection for one validator of ours: nothing if a period could not
      be had or it sits in no committee of the window; otherwise, over the scanned slots, how
      many answered with rows while it sat, how many of those paid it, and the sum paid. */
  lemma ExpectedMeans(w: Span, c: Chain, i: nat)
    requires Sane(w)
    ensures (exists k :: 0 <= k < |SyncPeriods(w)| && c.committee(SyncPeriods(w)[k]).None?) ==>
            Expected(w, c, i) == SyncOutcome(false, Counts(0, 0, 0))
    ensures !Sits(w, c, i) ==> Expected(w, c, i) == SyncOutcome(false, Counts(0, 0, 0))
    ensures Sits(w, c, i) && (forall k :: 0 <= k < |SyncPeriods(w)| ==> c.committee(SyncPeriods(w)[k]).Some?) ==>
            Expected(w, c, i)
            == SyncOutcome(true, Counts(Count((slot: nat) => EligibleAt(w, c, i, slot), ScanSlots(w)),
                                        Count((slot: nat) => SignedAt(w, c, i, slot), ScanSlots(w)),
                                        Total((slot: nat) => PaidAt(w, c, i, slot), ScanSlots(w))))
  {
    AllMembersAre(c, SyncPeriods(w), i);
    forall slot: nat
      ensures Contribution(ScanOf(w, c), slot, i)
              == Counts(if EligibleAt(w, c, i, slot) then 1 else 0, if SignedAt(w, c, i, slot) then 1 else 0,
                        PaidAt(w, c, i, slot))
    {
      SlotAdds(w, c, i, slot);
    }
    SumIsCounts(At(ScanOf(w, c), i), (slot: nat) => EligibleAt(w, c, i, slot), (slot: nat) => SignedAt(w, c, i, slot),
                (slot: nat) => PaidAt(w, c, i, slot), ScanSlots(w));
  }

  /** A validator of ours in the committee of some period of the window. */
  ghost predicate Sits(w: Span, c: Chain, i: nat)
    requires Sane(w)
  {
    i in c.ours && exists k :: 0 <= k < |SyncPeriods(w)| && c.committee(SyncPeriods(w)[k]).Some?
                               && i in c.committee(SyncPeriods(w)[k]).value
  }

  /** Per validator: signed <= eligible <= the window slots of periods it is a member of. */
  lemma OutcomeBounded(w: Span, c: Chain, i: nat)
    requires Sane(w)
    ensures var e := Expected(w, c, i).counts;
            e.signed <= e.eligible <= Count(MemberAt(ScanOf(w, c), i), ScanSlots(w))
  {
    CompletionOrderIrrelevantAndBounded(ScanOf(w, c), ScanSlots(w), ScanSlots(w), i);
  }
}
