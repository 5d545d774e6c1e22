/**
 * For which epochs and slots the protocol over signed columns is safe, exactly, column by
 * column: what the votes of a run do depends on its sources and targets only, what its blocks
 * do on its slots only, and each kind has its own condition and its own unsafe runs.
 */
module SlashingExact {
  import opened Common
  import opened SlashingRules
  import opened SlashingMachine
  import opened SlashingColumns

  /** The epochs and slots a run may use, one set for each kind of column. */
  datatype Domain = Domain(source: nat -> bool, target: nat -> bool, slot: nat -> bool)

  /** Only `u64` values. */
  ghost predicate Bounded(d: Domain) {
    forall x: nat :: d.source(x) || d.target(x) || d.slot(x) ==> x < TWO_64
  }

  ghost predicate EventIn(d: Domain, e: Event) {
    match e
    case Attest(c, _) => d.source(c.source) && d.target(c.target)
    case Propose(c, _) => d.slot(c.slot)
    case Import(atts, blocks) =>
      && (forall a :: a in atts ==> d.source(a.source) && d.target(a.target))
      && (forall b :: b in blocks ==> d.slot(b.slot))
    case SetAttFloor(source, target) => d.source(source) && d.target(target)
    case SetBlockFloor(slot) => d.slot(slot)
    case _ => true
  }

  ghost predicate RunIn(k: Roots, d: Domain, events: seq<Event>) {
    forall e :: e in events ==> HonestEvent(k, e) && EventIn(d, e)
  }

  ghost predicate VoteSafeRun(k: Roots, d: Domain, events: seq<Event>) {
    RunIn(k, d, events) ==> AttsSafe(SqlRun(Start, events).signedAtts)
  }

  ghost predicate BlockSafeRun(k: Roots, d: Domain, events: seq<Event>) {
    RunIn(k, d, events) ==> BlocksSafe(SqlRun(Start, events).signedBlocks)
  }

  ghost predicate VotesSafeFor(d: Domain) {
    forall k, events :: VoteSafeRun(k, d, events)
  }

  ghost predicate BlocksSafeFor(d: Domain) {
    forall k, events :: BlockSafeRun(k, d, events)
  }

  ghost predicate Straddles(x: nat -> bool) {
    exists low: nat, high: nat :: x(low) && x(high) && low < TWO_63 <= high
  }

  ghost predicate Several(x: nat -> bool) {
    exists a: nat, b: nat :: x(a) && x(b) && a < b
  }

  ghost predicate SomeValue(x: nat -> bool) {
    exists a: nat :: x(a)
  }

  /** Targets straddle with a source to vote from, or sources straddle with two targets. */
  ghost predicate VotesUnsafe(d: Domain) {
    || (Straddles(d.target) && SomeValue(d.source))
    || (Straddles(d.source) && Several(d.target))
  }

  // ----- what blocks see of a run -----

  function BlockView(s: State): State {
    State(Validator([], s.v.blocks, None, None, s.v.blockWm), if s.pending.HeldBlock? then s.pending else Idle,
          {}, s.signedBlocks, {}, s.importedBlocks)
  }

  function BlockSeen(s: State, e: Event): seq<Event> {
    match e
    case Attest(_, _) => []
    case Propose(_, _) => if s.pending.Idle? then [e] else []
    case Import(_, blocks) => [Import([], blocks)]
    case SetAttFloor(_, _) => []
    case SetBlockFloor(_) => [e]
    case Prune => [e]
    case _ => if s.pending.HeldBlock? then [e] else []
  }

  function BlockSeenRun(s: State, events: seq<Event>): seq<Event>
    decreases |events|
  {
    if events == [] then [] else BlockSeen(s, events[0]) + BlockSeenRun(SqlNext(s, events[0]), events[1..])
  }

  lemma ImportSeenByBlocks(s: State, atts: seq<Att>, blocks: seq<Block>)
    ensures BlockView(SqlNext(s, Import(atts, blocks))) == SqlNext(BlockView(s), Import([], blocks))
  {
    assert Elements<Att>([]) == {};
  }

  lemma BlockStep(s: State, e: Event)
    ensures BlockView(SqlNext(s, e)) == SqlRun(BlockView(s), BlockSeen(s, e))
  {
    match e
    case Import(atts, blocks) =>
      OneEvent(BlockView(s), Import([], blocks));
      ImportSeenByBlocks(s, atts, blocks);
    case _ => OneEvent(BlockView(s), e);
  }

  lemma {:induction false} BlockProjection(s: State, events: seq<Event>)
    ensures BlockView(SqlRun(s, events)) == SqlRun(BlockView(s), BlockSeenRun(s, events))
    decreases |events|
  {
    if events != [] {
      var t := SqlNext(s, events[0]);
      BlockStep(s, events[0]);
      BlockProjection(t, events[1..]);
      SqlRunConcat(BlockView(s), BlockSeen(s, events[0]), BlockSeenRun(t, events[1..]));
    }
  }

  // ----- what votes see of a run -----

  function VoteView(s: State): State {
    State(Validator(s.v.atts, [], s.v.sourceWm, s.v.targetWm, None), if s.pending.HeldAtt? then s.pending else Idle,
          s.signedAtts, {}, s.importedAtts, {})
  }

  function VoteSeen(s: State, e: Event): seq<Event> {
    match e
    case Propose(_, _) => []
    case Attest(_, _) => if s.pending.Idle? then [e] else []
    case Import(atts, _) => [Import(atts, [])]
    case SetAttFloor(_, _) => [e]
    case SetBlockFloor(_) => []
    case Prune => [e]
    case _ => if s.pending.HeldAtt? then [e] else []
  }

  function VoteSeenRun(s: State, events: seq<Event>): seq<Event>
    decreases |events|
  {
    if events == [] then [] else VoteSeen(s, events[0]) + VoteSeenRun(SqlNext(s, events[0]), events[1..])
  }

  lemma ImportSeenByVotes(s: State, atts: seq<Att>, blocks: seq<Block>)
    ensures VoteView(SqlNext(s, Import(atts, blocks))) == SqlNext(VoteView(s), Import(atts, []))
  {
    assert Elements<Block>([]) == {};
  }

  lemma VoteStep(s: State, e: Event)
    ensures VoteView(SqlNext(s, e)) == SqlRun(VoteView(s), VoteSeen(s, e))
  {
    match e
    case Import(atts, blocks) =>
      OneEvent(VoteView(s), Import(atts, []));
      ImportSeenByVotes(s, atts, blocks);
    case _ => OneEvent(VoteView(s), e);
  }

  lemma {:induction false} VoteProjection(s: State, events: seq<Event>)
    ensures VoteView(SqlRun(s, events)) == SqlRun(VoteView(s), VoteSeenRun(s, events))
    decreases |events|
  {
    if events != [] {
      var t := SqlNext(s, events[0]);
      VoteStep(s, events[0]);
      VoteProjection(t, events[1..]);
      SqlRunConcat(VoteView(s), VoteSeen(s, events[0]), VoteSeenRun(t, events[1..]));
    }
  }

  // ----- columns on one side -----

  lemma BlockEventAdmissible(k: Roots, d: Domain, z: Sides, s: State, e: Event)
    requires HonestEvent(k, e) && EventIn(d, e) && forall x: nat :: d.slot(x) ==> OnSide(z.slot, x)
    ensures Admissible(k, z, BlockSeen(s, e))
  {
  }

  lemma {:induction false} BlockSeenAdmissible(k: Roots, d: Domain, z: Sides, s: State, events: seq<Event>)
    requires RunIn(k, d, events) && forall x: nat :: d.slot(x) ==> OnSide(z.slot, x)
    ensures Admissible(k, z, BlockSeenRun(s, events))
    decreases |events|
  {
    if events != [] {
      assert events[0] in events;
      BlockEventAdmissible(k, d, z, s, events[0]);
      BlockSeenAdmissible(k, d, z, SqlNext(s, events[0]), events[1..]);
    }
  }

  /** No pair of a source and a target of the domain is off its side. */
  ghost predicate VotesOn(d: Domain, z: Sides) {
    forall x: nat, y: nat :: d.source(x) && d.target(y) ==> OnSide(z.source, x) && OnSide(z.target, y)
  }

  lemma VoteEventAdmissible(k: Roots, d: Domain, z: Sides, s: State, e: Event)
    requires HonestEvent(k, e) && EventIn(d, e) && VotesOn(d, z)
    ensures Admissible(k, z, VoteSeen(s, e))
  {
  }

  lemma {:induction false} VoteSeenAdmissible(k: Roots, d: Domain, z: Sides, s: State, events: seq<Event>)
    requires RunIn(k, d, events) && VotesOn(d, z)
    ensures Admissible(k, z, VoteSeenRun(s, events))
    decreases |events|
  {
    if events != [] {
      assert events[0] in events;
      VoteEventAdmissible(k, d, z, s, events[0]);
      VoteSeenAdmissible(k, d, z, SqlNext(s, events[0]), events[1..]);
    }
  }

  lemma {:induction false} OneSidedBlocksAreSafe(k: Roots, d: Domain, z: Sides, events: seq<Event>)
    requires RunIn(k, d, events) && forall x: nat :: d.slot(x) ==> OnSide(z.slot, x)
    ensures BlocksSafe(SqlRun(Start, events).signedBlocks)
  {
    BlockSeenAdmissible(k, d, z, Start, events);
    BlockProjection(Start, events);
    assert BlockView(Start) == Start;
    NoRunSignsASlashablePair(k, z, BlockSeenRun(Start, events));
    assert BlockView(SqlRun(Start, events)).signedBlocks == SqlRun(Start, events).signedBlocks;
  }

  lemma {:induction false} OneSidedVotesAreSafe(k: Roots, d: Domain, z: Sides, events: seq<Event>)
    requires RunIn(k, d, events) && VotesOn(d, z)
    ensures AttsSafe(SqlRun(Start, events).signedAtts)
  {
    VoteSeenAdmissible(k, d, z, Start, events);
    VoteProjection(Start, events);
    assert VoteView(Start) == Start;
    NoRunSignsASlashablePair(k, z, VoteSeenRun(Start, events));
    assert VoteView(SqlRun(Start, events)).signedAtts == SqlRun(Start, events).signedAtts;
  }

  // ----- a single target -----

  /** With one target only, sources decide nothing but refusals: a vote is kept out by the row
      at the target, or by any target floor. */
  ghost predicate OneTarget(t: nat, v: Validator) {
    && UniqueTargets(v.atts) && (forall a :: a in v.atts ==> a.target == t)
    && (v.targetWm.Some? ==> v.targetWm.value == t)
  }

  ghost predicate KeptOut(k: Roots, t: nat, v: Validator, a: Att) {
    HonestAtt(k, a) && a.target == t && (a in v.atts || v.targetWm.Some?)
  }

  ghost predicate OneTargetInv(k: Roots, t: nat, s: State) {
    && OneTarget(t, s.v)
    && (forall a :: a in s.v.atts ==> HonestAtt(k, a) || s.v.targetWm.Some?)
    && (forall a :: a in s.signedAtts ==> KeptOut(k, t, s.v, a))
    && AttsSafe(s.signedAtts)
    && (s.pending.HeldAtt? ==>
          && KeptOut(k, t, s.v, s.pending.att)
          && (s.pending.inserted ==> s.pending.att !in s.signedAtts)
          && forall a :: a in s.signedAtts ==> !SlashableAtts(s.pending.att, a))
  }

  lemma OneTargetPrune(t: nat, v: Validator)
    requires OneTarget(t, v)
    ensures SqlPrune(v).atts == v.atts && SqlPrune(v).targetWm == v.targetWm
  {
    if v.targetWm.Some? { NothingBelow(t, v.atts); }
  }

  lemma {:induction false} NothingBelow(t: nat, rows: seq<Att>)
    requires forall a :: a in rows ==> a.target == t
    ensures SqlFromTarget(rows, t) == rows
    decreases |rows|
  {
    if rows != [] {
      assert rows[0] in rows;
      NothingBelow(t, rows[1..]);
    }
  }

  lemma OneTargetAttest(k: Roots, t: nat, s: State, c: Att, strict: bool)
    requires OneTargetInv(k, t, s) && HonestAtt(k, c) && c.target == t
    ensures OneTargetInv(k, t, SqlNext(s, Attest(c, strict)))
  {
  }

  lemma OneTargetImport(k: Roots, t: nat, s: State, atts: seq<Att>, blocks: seq<Block>)
    requires OneTargetInv(k, t, s) && forall a :: a in atts ==> a.target == t
    ensures OneTargetInv(k, t, SqlNext(s, Import(atts, blocks)))
  {
    var w := SqlImport(s.v, atts, blocks);
    if atts == [] {
      assert w.atts == s.v.atts && w.targetWm == s.v.targetWm;
    } else {
      var m :| m in atts && m.target == MaxTarget(atts).value;
      assert w.targetWm == Some(t);
    }
  }

  lemma OneTargetStep(k: Roots, t: nat, s: State, e: Event)
    requires OneTargetInv(k, t, s) && HonestEvent(k, e)
    requires e.Attest? ==> e.att.target == t
    requires e.Import? ==> forall a :: a in e.atts ==> a.target == t
    requires e.SetAttFloor? ==> e.target == t
    ensures OneTargetInv(k, t, SqlNext(s, e))
  {
    match e
    case Attest(c, strict) => OneTargetAttest(k, t, s, c, strict);
    case Import(atts, blocks) => OneTargetImport(k, t, s, atts, blocks);
    case Prune => OneTargetPrune(t, s.v);
    case _ =>
  }

  lemma {:induction false} OneTargetRun(k: Roots, d: Domain, t: nat, s: State, events: seq<Event>)
    requires OneTargetInv(k, t, s) && RunIn(k, d, events) && forall y: nat :: d.target(y) ==> y == t
    ensures OneTargetInv(k, t, SqlRun(s, events))
    decreases |events|
  {
    if events != [] {
      assert events[0] in events;
      OneTargetStep(k, t, s, events[0]);
      OneTargetRun(k, d, t, SqlNext(s, events[0]), events[1..]);
    }
  }

  // ----- unsafe runs -----

  /** A proposal at `high`, a floor at `low`, a prune that takes the proposal for older than
      the floor, and a second proposal at `high`. */
  function DoubleProposalRun(low: nat, high: nat): seq<Event> {
    [Propose(Block(high, Some("a")), true), SignerSucceeds, SetBlockFloor(low), Prune,
     Propose(Block(high, Some("b")), true), SignerSucceeds]
  }

  lemma {:induction false} FirstProposal(s: State, b: Block)
    requires s.pending.Idle? && s.v.blocks == [] && (s.v.blockWm.Some? ==> s.v.blockWm.value < b.slot)
    ensures SqlRun(s, [Propose(b, true), SignerSucceeds])
            == s.(v := s.v.(blocks := [b]), signedBlocks := s.signedBlocks + {b})
  {
    var events := [Propose(b, true), SignerSucceeds];
    assert events[1..] == [SignerSucceeds] && events[1..][1..] == [];
    assert s.v.blocks + [b] == [b];
    var t := SqlNext(s, Propose(b, true));
    assert t == s.(v := s.v.(blocks := [b]), pending := HeldBlock(b, true));
    assert SqlRun(t, [SignerSucceeds]) == SqlNext(t, SignerSucceeds);
  }

  lemma {:induction false} FloorAndPrune(s: State, b: Block, low: nat)
    requires s.v == NoHistory.(blocks := [b]) && low < TWO_63 <= b.slot < TWO_64
    ensures SqlRun(s, [SetBlockFloor(low), Prune]) == s.(v := NoHistory.(blockWm := Some(low)))
  {
    var events := [SetBlockFloor(low), Prune];
    assert events[1..] == [Prune] && events[1..][1..] == [];
    var t := SqlNext(s, SetBlockFloor(low));
    assert SqlFromSlot([b], low) == [] by {
      assert [b][1..] == [];
      assert SqlLess(b.slot, low);
    }
    assert SqlRun(t, [Prune]) == SqlNext(t, Prune);
  }

  lemma StraddlingRunIsUnsafe(low: nat, high: nat)
    requires low < TWO_63 <= high < TWO_64
    ensures !BlocksSafe(SqlRun(Start, DoubleProposalRun(low, high)).signedBlocks)
  {
    var a, b := Block(high, Some("a")), Block(high, Some("b"));
    var first, middle := [Propose(a, true), SignerSucceeds], [SetBlockFloor(low), Prune];
    var last := [Propose(b, true), SignerSucceeds];
    assert DoubleProposalRun(low, high) == first + (middle + last);
    SqlRunConcat(Start, first, middle + last);
    FirstProposal(Start, a);
    var s1 := SqlRun(Start, first);
    SqlRunConcat(s1, middle, last);
    FloorAndPrune(s1, a, low);
    FirstProposal(SqlRun(s1, middle), b);
    assert SlashableBlocks(a, b);
  }

  /** A vote for target `high`, floors at its source and at target `low`, a prune that takes
      the vote for older than the floor, and a second vote for `high`. */
  function DoubleVoteRun(source: nat, low: nat, high: nat): seq<Event> {
    [Attest(Att(source, high, Some("a")), true), SignerSucceeds, SetAttFloor(source, low), Prune,
     Attest(Att(source, high, Some("b")), true), SignerSucceeds]
  }

  lemma {:induction false} SignVote(s: State, c: Att)
    requires s.pending.Idle? && SqlCheckAtt(s.v, c, true).Stage?
    ensures SqlRun(s, [Attest(c, true), SignerSucceeds])
            == s.(v := s.v.(atts := s.v.atts + [c]), signedAtts := s.signedAtts + {c})
  {
    var events := [Attest(c, true), SignerSucceeds];
    assert events[1..] == [SignerSucceeds];
    OneEvent(SqlNext(s, Attest(c, true)), SignerSucceeds);
  }

  lemma {:induction false} VoteFloorAndPrune(s: State, a: Att, low: nat)
    requires s.v == NoHistory.(atts := [a]) && low < TWO_63 <= a.target < TWO_64
    ensures SqlRun(s, [SetAttFloor(a.source, low), Prune])
            == s.(v := NoHistory.(sourceWm := Some(a.source), targetWm := Some(low)))
  {
    var events := [SetAttFloor(a.source, low), Prune];
    assert events[1..] == [Prune];
    var t := SqlNext(s, SetAttFloor(a.source, low));
    assert [a][1..] == [] && SqlLess(a.target, low);
    assert SqlFromTarget([a], low) == [];
    assert SqlBelowTarget([a], low) == [a];
    assert SqlMaxSource([a]) == Some(a.source);
    OneEvent(t, Prune);
  }

  lemma StraddlingTargetsAreUnsafe(source: nat, low: nat, high: nat)
    requires low < TWO_63 <= high < TWO_64
    ensures !AttsSafe(SqlRun(Start, DoubleVoteRun(source, low, high)).signedAtts)
  {
    var a, b := Att(source, high, Some("a")), Att(source, high, Some("b"));
    var first, middle := [Attest(a, true), SignerSucceeds], [SetAttFloor(source, low), Prune];
    var last := [Attest(b, true), SignerSucceeds];
    assert DoubleVoteRun(source, low, high) == first + (middle + last);
    SqlRunConcat(Start, first, middle + last);
    SignVote(Start, a);
    var s1 := SqlRun(Start, first);
    assert [] + [a] == [a];
    SqlRunConcat(s1, middle, last);
    VoteFloorAndPrune(s1, a, low);
    SignVote(SqlRun(s1, middle), b);
    assert SlashableAtts(a, b);
  }

  /** A vote from `high`, and then a surrounding one from `low`, which the columns order
      the other way. */
  function SurroundRun(low: nat, high: nat, t: nat, u: nat): seq<Event> {
    [Attest(Att(high, t, Some("a")), true), SignerSucceeds, Attest(Att(low, u, Some("b")), true), SignerSucceeds]
  }

  lemma SurroundUnseen(a: Att, b: Att)
    requires b.source < TWO_63 <= a.source < TWO_64 && a.target < b.target && SqlLess(a.target, b.target)
    ensures SqlCheckAtt(NoHistory.(atts := [a]), b, true).Stage?
  {
    assert forall r :: r in [a] ==> r == a;
    assert SqlMinTarget([a]) == Some(a.target);
  }

  lemma StraddlingSourcesAreUnsafe(low: nat, high: nat, t: nat, u: nat)
    requires low < TWO_63 <= high < TWO_64 && t < u && SqlLess(t, u)
    ensures !AttsSafe(SqlRun(Start, SurroundRun(low, high, t, u)).signedAtts)
  {
    var a, b := Att(high, t, Some("a")), Att(low, u, Some("b"));
    var first, last := [Attest(a, true), SignerSucceeds], [Attest(b, true), SignerSucceeds];
    assert SurroundRun(low, high, t, u) == first + last;
    SqlRunConcat(Start, first, last);
    SignVote(Start, a);
    assert [] + [a] == [a];
    SurroundUnseen(a, b);
    SignVote(SqlRun(Start, first), b);
    assert SlashableAtts(b, a);
  }

  // ----- the exact conditions -----

  /** Blocks are safe if and only if slots stay on one side of 2^63, whatever votes do. */
  lemma BlocksSafeIff(d: Domain)
    requires Bounded(d)
    ensures BlocksSafeFor(d) <==> !Straddles(d.slot)
  {
    if Straddles(d.slot) {
      var low: nat, high: nat :| d.slot(low) && d.slot(high) && low < TWO_63 <= high;
      StraddlingRunIsUnsafe(low, high);
      assert !BlockSafeRun(Roots(_ => (0, 0), _ => high), d, DoubleProposalRun(low, high));
    } else {
      var high := exists x: nat :: d.slot(x) && TWO_63 <= x;
      forall k, events
        ensures BlockSafeRun(k, d, events)
      {
        if RunIn(k, d, events) { OneSidedBlocksAreSafe(k, d, Sides(false, false, high), events); }
      }
    }
  }

  function TwoRoots(a: Att, b: Att): Roots {
    Roots((r: string) => if r == "a" then (a.source, a.target) else (b.source, b.target), _ => 0)
  }

  lemma UnsafeVotesHaveARun(d: Domain)
    requires Bounded(d) && VotesUnsafe(d)
    ensures !VotesSafeFor(d)
  {
    if Straddles(d.target) && SomeValue(d.source) {
      var source: nat :| d.source(source);
      var low: nat, high: nat :| d.target(low) && d.target(high) && low < TWO_63 <= high;
      StraddlingTargetsAreUnsafe(source, low, high);
      var a := Att(source, high, Some("a"));
      assert !VoteSafeRun(TwoRoots(a, a), d, DoubleVoteRun(source, low, high));
    } else {
      var low: nat, high: nat :| d.source(low) && d.source(high) && low < TWO_63 <= high;
      var t: nat, u: nat :| d.target(t) && d.target(u) && t < u;
      StraddlingSourcesAreUnsafe(low, high, t, u);
      assert !VoteSafeRun(TwoRoots(Att(high, t, Some("a")), Att(low, u, Some("b"))), d, SurroundRun(low, high, t, u));
    }
  }

  lemma {:induction false} OtherVotesAreSafe(d: Domain, k: Roots, events: seq<Event>)
    requires Bounded(d) && !VotesUnsafe(d) && RunIn(k, d, events)
    ensures AttsSafe(SqlRun(Start, events).signedAtts)
  {
    var high, up := exists x: nat :: d.source(x) && TWO_63 <= x, exists y: nat :: d.target(y) && TWO_63 <= y;
    if SomeValue(d.target) && Straddles(d.source) {
      var t: nat :| d.target(t);
      OneTargetRun(k, d, t, Start, events);
    } else {
      OneSidedVotesAreSafe(k, d, Sides(high, up, false), events);
    }
  }

  /** Votes are safe if and only if targets stay on one side of 2^63 (or there is no source to
      vote from), and sources do (or there is at most one target), whatever blocks do. */
  lemma VotesSafeIff(d: Domain)
    requires Bounded(d)
    ensures VotesSafeFor(d) <==> !VotesUnsafe(d)
  {
    if VotesUnsafe(d) {
      UnsafeVotesHaveARun(d);
    } else {
      forall k, events
        ensures VoteSafeRun(k, d, events)
      {
        if RunIn(k, d, events) { OtherVotesAreSafe(d, k, events); }
      }
    }
  }

  /** With one set for everything: safe if and only if it does not reach across 2^63. */
  lemma SafeIffOneSided(x: nat -> bool)
    requires Bounded(Domain(x, x, x))
    ensures VotesSafeFor(Domain(x, x, x)) && BlocksSafeFor(Domain(x, x, x)) <==> !Straddles(x)
  {
    VotesSafeIff(Domain(x, x, x));
    BlocksSafeIff(Domain(x, x, x));
  }
}
