/**
 * The database as SQLite sees it. Epochs and slots are `u64`, but the columns hold them
 * through an `as i64` cast, and every comparison made in SQL (the surround queries, `MIN`,
 * `MAX`, the prune deletes) compares the signed values; comparisons made in Rust (the floor
 * checks, explicit raises, the maxima of a file) compare the `u64` ones.
 *
 * As long as each column stays on one side of 2^63 the two orders agree and the store does
 * what `SlashingMachine` does; across 2^63 it does not, and the protocol is unsafe.
 */
module SlashingColumns {
  import opened Common
  import opened SlashingRules
  import opened SlashingMachine

  const TWO_63: int := 0x8000_0000_0000_0000
  const TWO_64: int := 0x1_0000_0000_0000_0000

  function AsI64(x: nat): int {
    if x < TWO_63 then x else x - TWO_64
  }

  /** The cast keeps the 64 bits and reads them as a signed number. */
  lemma CastKeepsTheBits(x: nat)
    requires x <= 18_446_744_073_709_551_615
    ensures -9_223_372_036_854_775_808 <= AsI64(x) <= 9_223_372_036_854_775_807
    ensures AsI64(x) == x || AsI64(x) == x - 18_446_744_073_709_551_616
  {
  }

  /** `<` between two stored columns. */
  predicate SqlLess(a: nat, b: nat) {
    AsI64(a) < AsI64(b)
  }

  /** SQL comparisons on the stored column agree with `u64` comparisons exactly when
      both values lie on the same side of 2^63. */
  lemma SignedColumnOrder(a: nat, b: nat)
    requires a < TWO_64 && b < TWO_64 && a != b
    ensures (SqlLess(a, b) <==> a < b) <==> (a < TWO_63 <==> b < TWO_63)
  {
  }

  // ----- the targeted queries -----

  predicate SqlSurrounds(a: Att, b: Att) {
    SqlLess(a.source, b.source) && SqlLess(b.target, a.target)
  }

  /** `SELECT MIN(target_epoch)`. */
  function SqlMinTarget(rows: seq<Att>): (m: Option<nat>)
    ensures m.None? <==> rows == []
    ensures m.Some? ==> exists a :: a in rows && a.target == m.value
    ensures m.Some? ==> forall a :: a in rows ==> !SqlLess(a.target, m.value)
  {
    if rows == [] then None
    else
      var rest := SqlMinTarget(rows[1..]);
      if rest.Some? && SqlLess(rest.value, rows[0].target) then rest
      else assert rows[0] in rows; Some(rows[0].target)
  }

  function SqlMinSlot(rows: seq<Block>): (m: Option<nat>)
    ensures m.None? <==> rows == []
    ensures m.Some? ==> exists b :: b in rows && b.slot == m.value
    ensures m.Some? ==> forall b :: b in rows ==> !SqlLess(b.slot, m.value)
  {
    if rows == [] then None
    else
      var rest := SqlMinSlot(rows[1..]);
      if rest.Some? && SqlLess(rest.value, rows[0].slot) then rest
      else assert rows[0] in rows; Some(rows[0].slot)
  }

  function TargetedAtts(rows: seq<Att>, c: Att): AttAnswers {
    AttAnswers(AtTarget(rows, c.target),
               exists r :: r in rows && SqlSurrounds(c, r),
               exists r :: r in rows && SqlSurrounds(r, c),
               SqlMinTarget(rows))
  }

  function TargetedBlocks(rows: seq<Block>, c: Block): BlockAnswers {
    BlockAnswers(AtSlot(rows, c.slot), SqlMinSlot(rows))
  }

  // ----- the operations of the store -----

  function SqlCheckAtt(v: Validator, c: Att, strict: bool): AttVerdict {
    DecideAttestation(TargetedAtts(v.atts, c), v.sourceWm, v.targetWm, c, strict)
  }

  function SqlCheckBlk(v: Validator, c: Block, strict: bool): BlockVerdict {
    DecideBlock(TargetedBlocks(v.blocks, c), v.blockWm, c, strict)
  }

  function SqlReserveAtt(v: Validator, c: Att, strict: bool): Validator {
    if SqlCheckAtt(v, c, strict).Stage? then v.(atts := v.atts + [c]) else v
  }

  function SqlReserveBlk(v: Validator, c: Block, strict: bool): Validator {
    if SqlCheckBlk(v, c, strict).StageBlock? then v.(blocks := v.blocks + [c]) else v
  }

  /** `SET value = MAX(watermarks.value, excluded.value)`. */
  function SqlRaise(wm: Option<nat>, x: nat): Option<nat> {
    if wm.Some? && SqlLess(x, wm.value) then wm else Some(x)
  }

  function SqlRaiseTo(wm: Option<nat>, x: Option<nat>): Option<nat> {
    if x.Some? then SqlRaise(wm, x.value) else wm
  }

  /** `SELECT MAX(source_epoch)`. */
  function SqlMaxSource(rows: seq<Att>): Option<nat> {
    if rows == [] then None else SqlRaiseTo(Some(rows[0].source), SqlMaxSource(rows[1..]))
  }

  function SqlFromTarget(rows: seq<Att>, low: nat): seq<Att> {
    if rows == [] then []
    else if SqlLess(rows[0].target, low) then SqlFromTarget(rows[1..], low)
    else [rows[0]] + SqlFromTarget(rows[1..], low)
  }

  function SqlBelowTarget(rows: seq<Att>, high: nat): seq<Att> {
    if rows == [] then []
    else if SqlLess(rows[0].target, high) then [rows[0]] + SqlBelowTarget(rows[1..], high)
    else SqlBelowTarget(rows[1..], high)
  }

  function SqlFromSlot(rows: seq<Block>, low: nat): seq<Block> {
    if rows == [] then []
    else if SqlLess(rows[0].slot, low) then SqlFromSlot(rows[1..], low)
    else [rows[0]] + SqlFromSlot(rows[1..], low)
  }

  function SqlPrune(v: Validator): Validator {
    var atts := if v.targetWm.Some? then SqlFromTarget(v.atts, v.targetWm.value) else v.atts;
    var sourceWm :=
      if v.targetWm.Some? then SqlRaiseTo(v.sourceWm, SqlMaxSource(SqlBelowTarget(v.atts, v.targetWm.value)))
      else v.sourceWm;
    var blocks := if v.blockWm.Some? then SqlFromSlot(v.blocks, v.blockWm.value) else v.blocks;
    v.(atts := atts, blocks := blocks, sourceWm := sourceWm)
  }

  /** The maxima of the file are taken in Rust, the raise is SQL. */
  function SqlImport(v: Validator, atts: seq<Att>, blocks: seq<Block>): Validator {
    Validator(ImportAtts(v.atts, atts), ImportBlocks(v.blocks, blocks),
              SqlRaiseTo(v.sourceWm, MaxSource(atts)), SqlRaiseTo(v.targetWm, MaxTarget(atts)),
              SqlRaiseTo(v.blockWm, MaxSlot(blocks)))
  }

  // ----- the protocol over columns -----

  function SqlNext(s: State, e: Event): State {
    match e
    case Attest(c, strict) =>
      var verdict := SqlCheckAtt(s.v, c, strict);
      if s.pending.Idle? && verdict.Accepted()
      then s.(v := SqlReserveAtt(s.v, c, strict), pending := HeldAtt(c, verdict.Stage?)) else s
    case Propose(c, strict) =>
      var verdict := SqlCheckBlk(s.v, c, strict);
      if s.pending.Idle? && verdict.Accepted()
      then s.(v := SqlReserveBlk(s.v, c, strict), pending := HeldBlock(c, verdict.StageBlock?)) else s
    case Prune => s.(v := SqlPrune(s.v))
    case Import(atts, blocks) => Next(s, e).(v := SqlImport(s.v, atts, blocks))
    case _ => Next(s, e)
  }

  function SqlRun(s: State, events: seq<Event>): State
    decreases |events|
  {
    if events == [] then s else SqlRun(SqlNext(s, events[0]), events[1..])
  }

  lemma {:induction false} OneEvent(s: State, e: Event)
    ensures SqlRun(s, [e]) == SqlNext(s, e)
  {
    assert [e][1..] == [];
  }

  lemma {:induction false} SqlRunConcat(s: State, a: seq<Event>, b: seq<Event>)
    ensures SqlRun(s, a + b) == SqlRun(SqlRun(s, a), b)
    decreases |a|
  {
    if a == [] {
      assert a + b == b;
    } else {
      assert (a + b)[1..] == a[1..] + b;
      SqlRunConcat(SqlNext(s, a[0]), a[1..], b);
    }
  }

  // ----- one side of 2^63 -----

  /** For each kind of column, whether its values are all 2^63 and above, or all below. */
  datatype Sides = Sides(source: bool, target: bool, slot: bool)

  predicate OnSide(high: bool, x: nat) {
    if high then TWO_63 <= x < TWO_64 else x < TWO_63
  }

  predicate FloorOn(high: bool, wm: Option<nat>) {
    wm.Some? ==> OnSide(high, wm.value)
  }

  predicate AttOn(z: Sides, a: Att) {
    OnSide(z.source, a.source) && OnSide(z.target, a.target)
  }

  predicate AttsOn(z: Sides, rows: seq<Att>) {
    forall a :: a in rows ==> AttOn(z, a)
  }

  predicate BlockOn(z: Sides, b: Block) {
    OnSide(z.slot, b.slot)
  }

  predicate BlocksOn(z: Sides, rows: seq<Block>) {
    forall b :: b in rows ==> BlockOn(z, b)
  }

  predicate ValidatorOn(z: Sides, v: Validator) {
    && AttsOn(z, v.atts) && BlocksOn(z, v.blocks)
    && FloorOn(z.source, v.sourceWm) && FloorOn(z.target, v.targetWm) && FloorOn(z.slot, v.blockWm)
  }

  predicate EventOn(z: Sides, e: Event) {
    match e
    case Attest(c, _) => AttOn(z, c)
    case Propose(c, _) => BlockOn(z, c)
    case Import(atts, blocks) => AttsOn(z, atts) && BlocksOn(z, blocks)
    case SetAttFloor(source, target) => OnSide(z.source, source) && OnSide(z.target, target)
    case SetBlockFloor(slot) => OnSide(z.slot, slot)
    case _ => true
  }

  lemma SameOrder(high: bool, a: nat, b: nat)
    requires OnSide(high, a) && OnSide(high, b)
    ensures SqlLess(a, b) <==> a < b
  {
  }

  // ----- the targeted queries agree with the full scan -----

  lemma {:induction false} MinTargetAgrees(z: Sides, rows: seq<Att>)
    requires AttsOn(z, rows)
    ensures SqlMinTarget(rows) == MinTarget(rows)
    decreases |rows|
  {
    if rows != [] { MinTargetAgrees(z, rows[1..]); }
  }

  lemma {:induction false} MinSlotAgrees(z: Sides, rows: seq<Block>)
    requires BlocksOn(z, rows)
    ensures SqlMinSlot(rows) == MinSlot(rows)
    decreases |rows|
  {
    if rows != [] { MinSlotAgrees(z, rows[1..]); }
  }

  lemma SurroundsAgree(z: Sides, a: Att, b: Att)
    requires AttOn(z, a) && AttOn(z, b)
    ensures SqlSurrounds(a, b) <==> Surrounds(a, b)
  {
    SameOrder(z.source, a.source, b.source);
    SameOrder(z.target, b.target, a.target);
  }

  lemma CheckAttAgrees(z: Sides, v: Validator, c: Att, strict: bool)
    requires AttsOn(z, v.atts) && AttOn(z, c)
    ensures SqlCheckAtt(v, c, strict) == CheckAtt(v, c, strict)
  {
    MinTargetAgrees(z, v.atts);
    forall r | r in v.atts
      ensures (SqlSurrounds(c, r) <==> Surrounds(c, r)) && (SqlSurrounds(r, c) <==> Surrounds(r, c))
    {
      SurroundsAgree(z, c, r);
      SurroundsAgree(z, r, c);
    }
    assert TargetedAtts(v.atts, c).surrounding == SurroundsSome(v.atts, c);
    assert TargetedAtts(v.atts, c).surrounded == SurroundedBySome(v.atts, c);
  }

  lemma CheckBlkAgrees(z: Sides, v: Validator, c: Block, strict: bool)
    requires BlocksOn(z, v.blocks)
    ensures SqlCheckBlk(v, c, strict) == CheckBlk(v, c, strict)
  {
    MinSlotAgrees(z, v.blocks);
  }

  // ----- pruning and importing agree -----

  lemma RaiseAgrees(high: bool, wm: Option<nat>, x: Option<nat>)
    requires FloorOn(high, wm) && FloorOn(high, x)
    ensures SqlRaiseTo(wm, x) == RaiseTo(wm, x) && FloorOn(high, RaiseTo(wm, x))
  {
  }

  lemma {:induction false} MaxSourceAgrees(z: Sides, rows: seq<Att>)
    requires AttsOn(z, rows)
    ensures SqlMaxSource(rows) == MaxSource(rows) && FloorOn(z.source, MaxSource(rows))
    decreases |rows|
  {
    if rows != [] {
      MaxSourceAgrees(z, rows[1..]);
      assert AttOn(z, rows[0]);
      RaiseAgrees(z.source, Some(rows[0].source), MaxSource(rows[1..]));
    }
  }

  lemma {:induction false} CutsAgree(z: Sides, rows: seq<Att>, cut: nat)
    requires AttsOn(z, rows) && OnSide(z.target, cut)
    ensures SqlFromTarget(rows, cut) == FromTarget(rows, cut)
    ensures SqlBelowTarget(rows, cut) == BelowTarget(rows, cut)
    decreases |rows|
  {
    if rows != [] {
      assert AttOn(z, rows[0]);
      SameOrder(z.target, rows[0].target, cut);
      CutsAgree(z, rows[1..], cut);
    }
  }

  lemma {:induction false} SlotCutAgrees(z: Sides, rows: seq<Block>, cut: nat)
    requires BlocksOn(z, rows) && OnSide(z.slot, cut)
    ensures SqlFromSlot(rows, cut) == FromSlot(rows, cut)
    decreases |rows|
  {
    if rows != [] {
      assert BlockOn(z, rows[0]);
      SameOrder(z.slot, rows[0].slot, cut);
      SlotCutAgrees(z, rows[1..], cut);
    }
  }

  lemma PruneAgrees(z: Sides, v: Validator)
    requires ValidatorOn(z, v)
    ensures SqlPrune(v) == PruneValidator(v) && ValidatorOn(z, PruneValidator(v))
  {
    if v.targetWm.Some? {
      var gone := BelowTarget(v.atts, v.targetWm.value);
      CutsAgree(z, v.atts, v.targetWm.value);
      MaxSourceAgrees(z, gone);
      RaiseAgrees(z.source, v.sourceWm, MaxSource(gone));
    }
    if v.blockWm.Some? { SlotCutAgrees(z, v.blocks, v.blockWm.value); }
  }

  /** On one side of 2^63 pruning deletes exactly the rows below their floor, keeps the target
      and block floors, and raises the source floor just over the votes it deletes. */
  lemma SqlPruneExact(z: Sides, v: Validator)
    requires ValidatorOn(z, v)
    ensures var w := SqlPrune(v);
            && (forall a :: a in w.atts <==> a in v.atts && !DoomedVote(v, a))
            && (forall b :: b in w.blocks <==> b in v.blocks && (v.blockWm.Some? ==> v.blockWm.value <= b.slot))
            && w.targetWm == v.targetWm && w.blockWm == v.blockWm
            && (v.sourceWm.Some? ==> w.sourceWm.Some? && v.sourceWm.value <= w.sourceWm.value)
            && (forall a :: a in v.atts && DoomedVote(v, a) ==> w.sourceWm.Some? && a.source <= w.sourceWm.value)
            && (w.sourceWm == v.sourceWm || exists a :: a in v.atts && DoomedVote(v, a) && w.sourceWm == Some(a.source))
  {
    PruneAgrees(z, v);
  }

  /** A vote below the target floor. */
  predicate DoomedVote(v: Validator, a: Att) {
    v.targetWm.Some? && a.target < v.targetWm.value
  }

  lemma ImportAgrees(z: Sides, v: Validator, atts: seq<Att>, blocks: seq<Block>)
    requires ValidatorOn(z, v) && AttsOn(z, atts) && BlocksOn(z, blocks)
    ensures SqlImport(v, atts, blocks) == ImportRecord(v, atts, blocks)
    ensures ValidatorOn(z, ImportRecord(v, atts, blocks))
  {
    assert FloorOn(z.source, MaxSource(atts)) && FloorOn(z.target, MaxTarget(atts)) && FloorOn(z.slot, MaxSlot(blocks));
    RaiseAgrees(z.source, v.sourceWm, MaxSource(atts));
    RaiseAgrees(z.target, v.targetWm, MaxTarget(atts));
    RaiseAgrees(z.slot, v.blockWm, MaxSlot(blocks));
  }

  /** Pruning the columns loses no protection: every deleted row lies under the floors. */
  lemma SqlPruneKeeps(k: Roots, z: Sides, v: Validator)
    requires GoodRows(k, v) && ValidatorOn(z, v)
    ensures GoodRows(k, SqlPrune(v)) && Keeps(v, SqlPrune(v)) && ValidatorOn(z, SqlPrune(v))
  {
    PruneAgrees(z, v);
    PruneKeeps(k, v);
  }

  /** Importing loses no protection and puts everything the record reports under the floors. */
  lemma SqlImportKeeps(k: Roots, z: Sides, v: Validator, atts: seq<Att>, blocks: seq<Block>)
    requires GoodRows(k, v) && ValidatorOn(z, v) && AttsOn(z, atts) && BlocksOn(z, blocks)
    ensures var w := SqlImport(v, atts, blocks);
            && GoodRows(k, w) && Keeps(v, w) && ValidatorOn(z, w)
            && (forall a :: a in atts ==> AttUnderFloor(w, a))
            && (forall b :: b in blocks ==> BlockUnderFloor(w, b))
  {
    ImportAgrees(z, v, atts, blocks);
    ImportKeeps(k, v, atts, blocks);
  }

  lemma NextAgrees(z: Sides, s: State, e: Event)
    requires ValidatorOn(z, s.v) && EventOn(z, e)
    ensures SqlNext(s, e) == Next(s, e) && ValidatorOn(z, Next(s, e).v)
  {
    match e
    case Attest(c, strict) => CheckAttAgrees(z, s.v, c, strict);
    case Propose(c, strict) => CheckBlkAgrees(z, s.v, c, strict);
    case Prune => PruneAgrees(z, s.v);
    case Import(atts, blocks) => ImportAgrees(z, s.v, atts, blocks);
    case _ =>
  }

  /** On one side of 2^63 the column store refines the machine that compares `u64` values. */
  lemma {:induction false} RunAgrees(z: Sides, s: State, events: seq<Event>)
    requires ValidatorOn(z, s.v) && forall e :: e in events ==> EventOn(z, e)
    ensures SqlRun(s, events) == Run(s, events) && ValidatorOn(z, Run(s, events).v)
    decreases |events|
  {
    if events != [] {
      assert events[0] in events;
      NextAgrees(z, s, events[0]);
      RunAgrees(z, Next(s, events[0]), events[1..]);
    }
  }

  // ----- the theorems -----

  ghost predicate Admissible(k: Roots, z: Sides, events: seq<Event>) {
    forall e :: e in events ==> HonestEvent(k, e) && EventOn(z, e)
  }

  lemma {:induction false} SqlRunKeepsInv(k: Roots, z: Sides, events: seq<Event>)
    requires Admissible(k, z, events)
    ensures Inv(k, SqlRun(Start, events)) && ValidatorOn(z, SqlRun(Start, events).v)
  {
    RunAgrees(z, Start, events);
    RunKeepsInv(k, Start, events);
  }

  /** No run ever signs a slashable pair: no double vote, no surround, no double
      proposal, whatever is pruned, imported, raised or retried along the way. */
  lemma {:induction false} NoRunSignsASlashablePair(k: Roots, z: Sides, events: seq<Event>)
    requires Admissible(k, z, events)
    ensures AttsSafe(SqlRun(Start, events).signedAtts)
    ensures BlocksSafe(SqlRun(Start, events).signedBlocks)
  {
    SqlRunKeepsInv(k, z, events);
  }

  /** After any run, an accepted vote conflicts neither with anything signed here nor
      with anything an earlier import reported as signed elsewhere. */
  lemma {:induction false} AcceptedVoteClearsHistory(k: Roots, z: Sides, events: seq<Event>, c: Att, strict: bool)
    requires Admissible(k, z, events) && HonestAtt(k, c) && AttOn(z, c)
    requires SqlCheckAtt(SqlRun(Start, events).v, c, strict).Accepted()
    ensures forall m :: m in SqlRun(Start, events).signedAtts + SqlRun(Start, events).importedAtts
              ==> !SlashableAtts(c, m)
  {
    SqlRunKeepsInv(k, z, events);
    var s := SqlRun(Start, events);
    CheckAttAgrees(z, s.v, c, strict);
    forall m | m in s.signedAtts + s.importedAtts
      ensures !SlashableAtts(c, m)
    {
      AcceptedAttClearsCovered(k, s.v, c, strict, m);
    }
  }

  lemma {:induction false} AcceptedBlockClearsHistory(k: Roots, z: Sides, events: seq<Event>, c: Block, strict: bool)
    requires Admissible(k, z, events) && HonestBlock(k, c)
    requires SqlCheckBlk(SqlRun(Start, events).v, c, strict).Accepted()
    ensures forall m :: m in SqlRun(Start, events).signedBlocks + SqlRun(Start, events).importedBlocks
              ==> !SlashableBlocks(c, m)
  {
    SqlRunKeepsInv(k, z, events);
    var s := SqlRun(Start, events);
    CheckBlkAgrees(z, s.v, c, strict);
    forall m | m in s.signedBlocks + s.importedBlocks
      ensures !SlashableBlocks(c, m)
    {
      AcceptedBlockClearsCovered(k, s.v, c, strict, m);
    }
  }

  // ----- across 2^63 -----

  /** A vote for a target of 2^63 is not seen to surround a recorded vote. */
  lemma HighTargetSurroundsUnseen()
    ensures var v := NoHistory.(atts := [Att(2, 3, Some("a"))]);
            var c := Att(1, TWO_63, Some("b"));
            SlashableAtts(c, v.atts[0]) && CheckAtt(v, c, true) == SurroundingVote && SqlCheckAtt(v, c, true) == Stage
  {
    var row := Att(2, 3, Some("a"));
    var c := Att(1, TWO_63, Some("b"));
    assert row in [row] && Surrounds(c, row);
    assert forall r :: r in [row] ==> r == row;
    assert SqlMinTarget([row]) == Some(3);
  }

  /** Importing a target of 2^63 leaves a floor of 5 where it was. */
  lemma HighImportIsDropped()
    ensures var v := NoHistory.(sourceWm := Some(0), targetWm := Some(5));
            var a := Att(1, TWO_63, None);
            SqlImport(v, [a], []).targetWm == Some(5) && !AttUnderFloor(SqlImport(v, [a], []), a)
  {
    assert MaxTarget([Att(1, TWO_63, None)]) == Some(TWO_63);
  }

  /** The signed raise covers the new value, and keeps the old floor, exactly when it is not
      asked to step over 2^63. */
  lemma SignedRaiseExact(w: nat, x: nat)
    requires w < TWO_64 && x < TWO_64
    ensures x <= SqlRaise(Some(w), x).value <==> !(w < TWO_63 <= x)
    ensures w <= SqlRaise(Some(w), x).value <==> !(x < TWO_63 <= w)
  {
  }
}
