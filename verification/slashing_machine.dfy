/**
 * The slashing-protection protocol of one validator as a state machine.
 *
 * Every history write commits before the signer is called
 * (`crates/slashing/src/stage.rs`, `group_commit.rs`), a definite signing failure
 * deletes the reserved row again, and pruning, interchange import and explicit
 * watermark raises may run between any two of those steps. The per-pubkey lock of
 * `crates/signer/src/core.rs` is held from reserve to reconcile, so at most one
 * reservation is pending; everything else interleaves freely.
 *
 * Values are compared here as the `u64` numbers they are; `SlashingColumns` carries the
 * invariant over to the signed columns the database keeps them in.
 */
module SlashingMachine {
  import opened Common
  import opened SlashingRules

  /** The rows and watermarks stored for one pubkey. */
  datatype Validator = Validator(
    atts: seq<Att>, blocks: seq<Block>,
    sourceWm: Option<nat>, targetWm: Option<nat>, blockWm: Option<nat>)

  const NoHistory := Validator([], [], None, None, None)

  // ----- database operations on one validator -----

  function CheckAtt(v: Validator, c: Att, strict: bool): AttVerdict {
    CheckAttestation(v.atts, v.sourceWm, v.targetWm, c, strict)
  }

  function CheckBlk(v: Validator, c: Block, strict: bool): BlockVerdict {
    CheckBlock(v.blocks, v.blockWm, c, strict)
  }

  /** Rule check and insert in one transaction; a duplicate inserts nothing. */
  function ReserveAtt(v: Validator, c: Att, strict: bool): Validator {
    if CheckAtt(v, c, strict).Stage? then v.(atts := v.atts + [c]) else v
  }

  function ReserveBlk(v: Validator, c: Block, strict: bool): Validator {
    if CheckBlk(v, c, strict).StageBlock? then v.(blocks := v.blocks + [c]) else v
  }

  lemma UniqueAfterHead(rows: seq<Att>, kept: seq<Att>)
    requires rows != [] && UniqueTargets(rows) && UniqueTargets(kept)
    requires forall x :: x in kept ==> x in rows[1..]
    ensures UniqueTargets([rows[0]] + kept)
  {
    forall j | 0 <= j < |kept|
      ensures kept[j].target != rows[0].target
    {
      assert kept[j] in rows[1..];
      var i :| 0 <= i < |rows[1..]| && rows[1..][i] == kept[j];
      assert rows[i + 1] == kept[j];
    }
  }

  lemma UniqueSlotsAfterHead(rows: seq<Block>, kept: seq<Block>)
    requires rows != [] && UniqueSlots(rows) && UniqueSlots(kept)
    requires forall x :: x in kept ==> x in rows[1..]
    ensures UniqueSlots([rows[0]] + kept)
  {
    forall j | 0 <= j < |kept|
      ensures kept[j].slot != rows[0].slot
    {
      assert kept[j] in rows[1..];
      var i :| 0 <= i < |rows[1..]| && rows[1..][i] == kept[j];
      assert rows[i + 1] == kept[j];
    }
  }

  /** The compensating delete matches the whole row, a missing root included. */
  function DeleteAtt(rows: seq<Att>, a: Att): (kept: seq<Att>)
    ensures forall x :: x in kept <==> x in rows && x != a
    ensures UniqueTargets(rows) ==> UniqueTargets(kept)
  {
    if rows == [] then []
    else
      var rest := DeleteAtt(rows[1..], a);
      assert UniqueTargets(rows) ==> UniqueTargets([rows[0]] + rest) by {
        if UniqueTargets(rows) { UniqueAfterHead(rows, rest); }
      }
      if rows[0] == a then rest else [rows[0]] + rest
  }

  function DeleteBlk(rows: seq<Block>, b: Block): (kept: seq<Block>)
    ensures forall x :: x in kept <==> x in rows && x != b
    ensures UniqueSlots(rows) ==> UniqueSlots(kept)
  {
    if rows == [] then []
    else
      var rest := DeleteBlk(rows[1..], b);
      assert UniqueSlots(rows) ==> UniqueSlots([rows[0]] + rest) by {
        if UniqueSlots(rows) { UniqueSlotsAfterHead(rows, rest); }
      }
      if rows[0] == b then rest else [rows[0]] + rest
  }

  /** `MAX(watermarks.value, excluded.value)`: a watermark only ever rises. */
  function Raise(wm: Option<nat>, x: nat): (r: Option<nat>)
    ensures r.Some? && x <= r.value && (wm.Some? ==> wm.value <= r.value)
    ensures r.value == x || r == wm
  {
    if wm.Some? && x < wm.value then wm else Some(x)
  }

  function RaiseTo(wm: Option<nat>, x: Option<nat>): (r: Option<nat>)
    ensures wm.Some? ==> r.Some? && wm.value <= r.value
    ensures x.Some? ==> r.Some? && x.value <= r.value
  {
    if x.Some? then Raise(wm, x.value) else wm
  }

  function MaxSource(rows: seq<Att>): (m: Option<nat>)
    ensures m.None? <==> rows == []
    ensures m.Some? ==> forall a :: a in rows ==> a.source <= m.value
    ensures m.Some? ==> exists a :: a in rows && a.source == m.value
  {
    if rows == [] then None
    else assert rows[0] in rows; RaiseTo(Some(rows[0].source), MaxSource(rows[1..]))
  }

  function MaxTarget(rows: seq<Att>): (m: Option<nat>)
    ensures m.None? <==> rows == []
    ensures m.Some? ==> forall a :: a in rows ==> a.target <= m.value
    ensures m.Some? ==> exists a :: a in rows && a.target == m.value
  {
    if rows == [] then None
    else assert rows[0] in rows; RaiseTo(Some(rows[0].target), MaxTarget(rows[1..]))
  }

  function MaxSlot(rows: seq<Block>): (m: Option<nat>)
    ensures m.None? <==> rows == []
    ensures m.Some? ==> forall b :: b in rows ==> b.slot <= m.value
    ensures m.Some? ==> exists b :: b in rows && b.slot == m.value
  {
    if rows == [] then None
    else assert rows[0] in rows; RaiseTo(Some(rows[0].slot), MaxSlot(rows[1..]))
  }

  /** Rows with `low <= target`; pruning keeps these and deletes the others. */
  function FromTarget(rows: seq<Att>, low: nat): (kept: seq<Att>)
    ensures forall x :: x in kept <==> x in rows && low <= x.target
    ensures UniqueTargets(rows) ==> UniqueTargets(kept)
  {
    if rows == [] then []
    else
      var rest := FromTarget(rows[1..], low);
      assert UniqueTargets(rows) ==> UniqueTargets([rows[0]] + rest) by {
        if UniqueTargets(rows) { UniqueAfterHead(rows, rest); }
      }
      if rows[0].target < low then rest else [rows[0]] + rest
  }

  function BelowTarget(rows: seq<Att>, high: nat): (gone: seq<Att>)
    ensures forall x :: x in gone <==> x in rows && x.target < high
  {
    if rows == [] then []
    else
      var rest := BelowTarget(rows[1..], high);
      if rows[0].target < high then [rows[0]] + rest else rest
  }

  function FromSlot(rows: seq<Block>, low: nat): (kept: seq<Block>)
    ensures forall x :: x in kept <==> x in rows && low <= x.slot
    ensures UniqueSlots(rows) ==> UniqueSlots(kept)
  {
    if rows == [] then []
    else
      var rest := FromSlot(rows[1..], low);
      assert UniqueSlots(rows) ==> UniqueSlots([rows[0]] + rest) by {
        if UniqueSlots(rows) { UniqueSlotsAfterHead(rows, rest); }
      }
      if rows[0].slot < low then rest else [rows[0]] + rest
  }

  /** Raise the source floor over the doomed rows, then delete what lies below the
      target and block floors. */
  function PruneValidator(v: Validator): Validator {
    var atts := if v.targetWm.Some? then FromTarget(v.atts, v.targetWm.value) else v.atts;
    var sourceWm :=
      if v.targetWm.Some? then RaiseTo(v.sourceWm, MaxSource(BelowTarget(v.atts, v.targetWm.value)))
      else v.sourceWm;
    var blocks := if v.blockWm.Some? then FromSlot(v.blocks, v.blockWm.value) else v.blocks;
    v.(atts := atts, blocks := blocks, sourceWm := sourceWm)
  }

  /** `INSERT … WHERE NOT EXISTS` a row at the same target. */
  function ImportAtts(rows: seq<Att>, file: seq<Att>): (r: seq<Att>)
    ensures forall x :: x in rows ==> x in r
    ensures forall x :: x in r ==> x in rows || x in file
    ensures UniqueTargets(rows) ==> UniqueTargets(r)
    decreases |file|
  {
    if file == [] then rows
    else
      var next := if AtTarget(rows, file[0].target).Some? then rows else rows + [file[0]];
      ImportAtts(next, file[1..])
  }

  function ImportBlocks(rows: seq<Block>, file: seq<Block>): (r: seq<Block>)
    ensures forall x :: x in rows ==> x in r
    ensures forall x :: x in r ==> x in rows || x in file
    ensures UniqueSlots(rows) ==> UniqueSlots(r)
    decreases |file|
  {
    if file == [] then rows
    else
      var next := if AtSlot(rows, file[0].slot).Some? then rows else rows + [file[0]];
      ImportBlocks(next, file[1..])
  }

  /** One interchange record: insert the rows, then raise every floor to the file maxima. */
  function ImportRecord(v: Validator, atts: seq<Att>, blocks: seq<Block>): Validator {
    Validator(ImportAtts(v.atts, atts), ImportBlocks(v.blocks, blocks),
              RaiseTo(v.sourceWm, MaxSource(atts)), RaiseTo(v.targetWm, MaxTarget(atts)),
              RaiseTo(v.blockWm, MaxSlot(blocks)))
  }

  predicate MayRaise(wm: Option<nat>, x: nat) {
    wm.Some? ==> wm.value <= x
  }

  /** `set_attestation_watermark`: both floors in one transaction, never lowered. */
  function SetAttWatermark(v: Validator, source: nat, target: nat): Validator {
    if MayRaise(v.sourceWm, source) && MayRaise(v.targetWm, target)
    then v.(sourceWm := Some(source), targetWm := Some(target)) else v
  }

  function SetBlockWatermark(v: Validator, slot: nat): Validator {
    if MayRaise(v.blockWm, slot) then v.(blockWm := Some(slot)) else v
  }

  // ----- the protocol -----

  /** The reservation whose holder still owns the per-pubkey lock. */
  datatype Pending =
    | Idle
    | HeldAtt(att: Att, inserted: bool)
    | HeldBlock(block: Block, inserted: bool)

  /** `signed*` are the messages whose signature may have left the process,
      `imported*` the messages an imported file reports as signed elsewhere. */
  datatype State = State(
    v: Validator, pending: Pending,
    signedAtts: set<Att>, signedBlocks: set<Block>,
    importedAtts: set<Att>, importedBlocks: set<Block>)

  const Start := State(NoHistory, Idle, {}, {}, {}, {})

  datatype Event =
    | Attest(att: Att, strict: bool)
    | Propose(block: Block, strict: bool)
    | SignerSucceeds
    | SignerRejects                    // definite failure: compensating delete
    | SignerAmbiguous(escaped: bool)   // row retained; a signature may exist
    | Prune
    | Import(atts: seq<Att>, blocks: seq<Block>)
    | SetAttFloor(source: nat, target: nat)
    | SetBlockFloor(slot: nat)

  function Elements<T(==)>(xs: seq<T>): set<T> {
    set x | x in xs
  }

  function Release(s: State, escaped: bool): State {
    match s.pending
    case Idle => s
    case HeldAtt(a, _) =>
      s.(pending := Idle, signedAtts := if escaped then s.signedAtts + {a} else s.signedAtts)
    case HeldBlock(b, _) =>
      s.(pending := Idle, signedBlocks := if escaped then s.signedBlocks + {b} else s.signedBlocks)
  }

  function Reconcile(s: State): State {
    match s.pending
    case Idle => s
    case HeldAtt(a, inserted) =>
      s.(pending := Idle, v := if inserted then s.v.(atts := DeleteAtt(s.v.atts, a)) else s.v)
    case HeldBlock(b, inserted) =>
      s.(pending := Idle, v := if inserted then s.v.(blocks := DeleteBlk(s.v.blocks, b)) else s.v)
  }

  /** One step. A request that finds the lock taken, or that the rules refuse,
      changes nothing. */
  function Next(s: State, e: Event): State {
    match e
    case Attest(c, strict) =>
      var verdict := CheckAtt(s.v, c, strict);
      if s.pending.Idle? && verdict.Accepted()
      then s.(v := ReserveAtt(s.v, c, strict), pending := HeldAtt(c, verdict.Stage?)) else s
    case Propose(c, strict) =>
      var verdict := CheckBlk(s.v, c, strict);
      if s.pending.Idle? && verdict.Accepted()
      then s.(v := ReserveBlk(s.v, c, strict), pending := HeldBlock(c, verdict.StageBlock?)) else s
    case SignerSucceeds => Release(s, true)
    case SignerRejects => Reconcile(s)
    case SignerAmbiguous(escaped) => Release(s, escaped)
    case Prune => s.(v := PruneValidator(s.v))
    case Import(atts, blocks) =>
      s.(v := ImportRecord(s.v, atts, blocks),
         importedAtts := s.importedAtts + Elements(atts),
         importedBlocks := s.importedBlocks + Elements(blocks))
    case SetAttFloor(source, target) => s.(v := SetAttWatermark(s.v, source, target))
    case SetBlockFloor(slot) => s.(v := SetBlockWatermark(s.v, slot))
  }

  function Run(s: State, events: seq<Event>): State
    decreases |events|
  {
    if events == [] then s else Run(Next(s, events[0]), events[1..])
  }

  // ----- what a run may request -----

  /** What a signing root was computed from. Production requests always carry a root. */
  datatype Roots = Roots(attData: string -> (nat, nat), blockSlot: string -> nat)

  ghost predicate HonestAtt(k: Roots, a: Att) {
    a.root.Some? && k.attData(a.root.value) == (a.source, a.target)
  }

  ghost predicate HonestBlock(k: Roots, b: Block) {
    b.root.Some? && k.blockSlot(b.root.value) == b.slot
  }

  /** Imports are unconstrained: only the requests of this process are honest. */
  ghost predicate HonestEvent(k: Roots, e: Event) {
    match e
    case Attest(c, _) => HonestAtt(k, c)
    case Propose(c, _) => HonestBlock(k, c)
    case _ => true
  }

  // ----- the invariant -----

  /** Both floors lie at or above the vote, so no later vote can conflict with it. */
  predicate AttUnderFloor(v: Validator, a: Att) {
    v.sourceWm.Some? && v.targetWm.Some? && a.source <= v.sourceWm.value && a.target <= v.targetWm.value
  }

  predicate BlockUnderFloor(v: Validator, b: Block) {
    v.blockWm.Some? && b.slot <= v.blockWm.value
  }

  predicate AttCovered(v: Validator, a: Att) {
    a in v.atts || AttUnderFloor(v, a)
  }

  predicate BlockCovered(v: Validator, b: Block) {
    b in v.blocks || BlockUnderFloor(v, b)
  }

  ghost predicate AttsSafe(s: set<Att>) {
    forall a, b :: a in s && b in s && a != b ==> !SlashableAtts(a, b)
  }

  ghost predicate BlocksSafe(s: set<Block>) {
    forall a, b :: a in s && b in s && a != b ==> !SlashableBlocks(a, b)
  }

  /** Rows are unique, and honest unless a floor already refuses their target. */
  ghost predicate GoodRows(k: Roots, v: Validator) {
    && UniqueTargets(v.atts) && UniqueSlots(v.blocks)
    && (forall a :: a in v.atts ==> HonestAtt(k, a) || AttUnderFloor(v, a))
    && (forall b :: b in v.blocks ==> HonestBlock(k, b) || BlockUnderFloor(v, b))
  }

  ghost predicate GoodPending(k: Roots, s: State) {
    match s.pending
    case Idle => true
    case HeldAtt(a, inserted) =>
      && HonestAtt(k, a) && AttCovered(s.v, a)
      && (inserted ==> a !in s.signedAtts)
      && (forall b :: b in s.signedAtts ==> !SlashableAtts(a, b))
    case HeldBlock(b, inserted) =>
      && HonestBlock(k, b) && BlockCovered(s.v, b)
      && (inserted ==> b !in s.signedBlocks)
      && (forall c :: c in s.signedBlocks ==> !SlashableBlocks(b, c))
  }

  ghost predicate GoodSigned(k: Roots, s: State) {
    && AttsSafe(s.signedAtts) && BlocksSafe(s.signedBlocks)
    && (forall a :: a in s.signedAtts ==> HonestAtt(k, a) && AttCovered(s.v, a))
    && (forall b :: b in s.signedBlocks ==> HonestBlock(k, b) && BlockCovered(s.v, b))
  }

  ghost predicate GoodImported(s: State) {
    && (forall a :: a in s.importedAtts ==> AttUnderFloor(s.v, a))
    && (forall b :: b in s.importedBlocks ==> BlockUnderFloor(s.v, b))
  }

  ghost predicate Inv(k: Roots, s: State) {
    GoodRows(k, s.v) && GoodPending(k, s) && GoodSigned(k, s) && GoodImported(s)
  }

  // ----- accepted requests conflict with nothing covered -----

  lemma AcceptedAttClearsCovered(k: Roots, v: Validator, c: Att, strict: bool, m: Att)
    requires GoodRows(k, v) && HonestAtt(k, c) && CheckAtt(v, c, strict).Accepted()
    requires AttUnderFloor(v, m) || (m in v.atts && HonestAtt(k, m))
    ensures !SlashableAtts(c, m) && !SlashableAtts(m, c)
    ensures c == m ==> CheckAtt(v, c, strict).Duplicate?
  {
  }

  lemma AcceptedBlockClearsCovered(k: Roots, v: Validator, c: Block, strict: bool, m: Block)
    requires GoodRows(k, v) && HonestBlock(k, c) && CheckBlk(v, c, strict).Accepted()
    requires BlockUnderFloor(v, m) || (m in v.blocks && HonestBlock(k, m))
    ensures !SlashableBlocks(c, m) && !SlashableBlocks(m, c)
    ensures c == m ==> CheckBlk(v, c, strict).Resign?
  {
  }

  /** An accepted request leaves good rows with the request among them. */
  lemma ReserveAttRecords(k: Roots, v: Validator, c: Att, strict: bool)
    requires GoodRows(k, v) && HonestAtt(k, c) && CheckAtt(v, c, strict).Accepted()
    ensures GoodRows(k, ReserveAtt(v, c, strict)) && c in ReserveAtt(v, c, strict).atts
    ensures forall a :: a in v.atts ==> a in ReserveAtt(v, c, strict).atts
  {
  }

  lemma ReserveBlkRecords(k: Roots, v: Validator, c: Block, strict: bool)
    requires GoodRows(k, v) && HonestBlock(k, c) && CheckBlk(v, c, strict).Accepted()
    ensures GoodRows(k, ReserveBlk(v, c, strict)) && c in ReserveBlk(v, c, strict).blocks
    ensures forall b :: b in v.blocks ==> b in ReserveBlk(v, c, strict).blocks
  {
  }

  // ----- every step keeps the invariant -----

  lemma AttestKeepsInv(k: Roots, s: State, c: Att, strict: bool)
    requires Inv(k, s) && HonestAtt(k, c)
    ensures Inv(k, Next(s, Attest(c, strict)))
  {
    var verdict := CheckAtt(s.v, c, strict);
    if s.pending.Idle? && verdict.Accepted() {
      ReserveAttRecords(k, s.v, c, strict);
      assert Keeps(s.v, ReserveAtt(s.v, c, strict));
      forall m | m in s.signedAtts
        ensures !SlashableAtts(c, m) && (c == m ==> verdict.Duplicate?)
      {
        AcceptedAttClearsCovered(k, s.v, c, strict, m);
      }
    }
  }

  lemma ProposeKeepsInv(k: Roots, s: State, c: Block, strict: bool)
    requires Inv(k, s) && HonestBlock(k, c)
    ensures Inv(k, Next(s, Propose(c, strict)))
  {
    var verdict := CheckBlk(s.v, c, strict);
    if s.pending.Idle? && verdict.Accepted() {
      ReserveBlkRecords(k, s.v, c, strict);
      assert Keeps(s.v, ReserveBlk(s.v, c, strict));
      forall m | m in s.signedBlocks
        ensures !SlashableBlocks(c, m) && (c == m ==> verdict.Resign?)
      {
        AcceptedBlockClearsCovered(k, s.v, c, strict, m);
      }
    }
  }

  lemma ReleaseKeepsInv(k: Roots, s: State, escaped: bool)
    requires Inv(k, s)
    ensures Inv(k, Release(s, escaped))
  {
  }

  lemma ReconcileKeepsInv(k: Roots, s: State)
    requires Inv(k, s)
    ensures Inv(k, Reconcile(s))
  {
  }

  /** Nothing that was covered becomes uncovered. */
  ghost predicate Keeps(v: Validator, w: Validator) {
    && (forall a :: AttUnderFloor(v, a) ==> AttUnderFloor(w, a))
    && (forall b :: BlockUnderFloor(v, b) ==> BlockUnderFloor(w, b))
    && (forall a :: a in v.atts ==> AttCovered(w, a))
    && (forall b :: b in v.blocks ==> BlockCovered(w, b))
  }

  lemma KeepingKeepsInv(k: Roots, s: State, w: Validator)
    requires Inv(k, s) && GoodRows(k, w) && Keeps(s.v, w)
    ensures Inv(k, s.(v := w))
  {
  }

  lemma PruneKeeps(k: Roots, v: Validator)
    requires GoodRows(k, v)
    ensures GoodRows(k, PruneValidator(v)) && Keeps(v, PruneValidator(v))
  {
  }

  lemma ImportKeeps(k: Roots, v: Validator, atts: seq<Att>, blocks: seq<Block>)
    requires GoodRows(k, v)
    ensures var w := ImportRecord(v, atts, blocks);
            && GoodRows(k, w) && Keeps(v, w)
            && (forall a :: a in atts ==> AttUnderFloor(w, a))
            && (forall b :: b in blocks ==> BlockUnderFloor(w, b))
  {
  }

  lemma NextKeepsInv(k: Roots, s: State, e: Event)
    requires Inv(k, s) && HonestEvent(k, e)
    ensures Inv(k, Next(s, e))
  {
    match e
    case Attest(c, strict) => AttestKeepsInv(k, s, c, strict);
    case Propose(c, strict) => ProposeKeepsInv(k, s, c, strict);
    case SignerSucceeds => ReleaseKeepsInv(k, s, true);
    case SignerRejects => ReconcileKeepsInv(k, s);
    case SignerAmbiguous(escaped) => ReleaseKeepsInv(k, s, escaped);
    case Prune =>
      PruneKeeps(k, s.v);
      KeepingKeepsInv(k, s, PruneValidator(s.v));
    case Import(atts, blocks) =>
      ImportKeeps(k, s.v, atts, blocks);
      KeepingKeepsInv(k, s, ImportRecord(s.v, atts, blocks));
    case SetAttFloor(source, target) => KeepingKeepsInv(k, s, SetAttWatermark(s.v, source, target));
    case SetBlockFloor(slot) => KeepingKeepsInv(k, s, SetBlockWatermark(s.v, slot));
  }

  lemma {:induction false} RunKeepsInv(k: Roots, s: State, events: seq<Event>)
    requires Inv(k, s) && forall e :: e in events ==> HonestEvent(k, e)
    ensures Inv(k, Run(s, events))
    decreases |events|
  {
    if events != [] {
      assert events[0] in events;
      NextKeepsInv(k, s, events[0]);
      RunKeepsInv(k, Next(s, events[0]), events[1..]);
    }
  }

  // ----- why the lock and the source bound are there -----

  /** Without the reserve-to-reconcile lock the protocol is unsafe. Two requests for
      one vote: the second is a duplicate and signs, then the first fails and deletes
      the shared row, and a conflicting vote is accepted. */
  lemma WithoutTheSignSpanLockADoubleVoteIsAccepted()
    ensures var first := Att(1, 2, Some("a"));
            var v1 := ReserveAtt(NoHistory, first, true);
            var v2 := v1.(atts := DeleteAtt(v1.atts, first));
            && CheckAtt(NoHistory, first, true).Stage?
            && CheckAtt(v1, first, true).Duplicate?
            && CheckAtt(v2, Att(1, 2, Some("b")), true).Stage?
            && SlashableAtts(first, Att(1, 2, Some("b")))
  {
  }

  /** Deleting by target alone, without raising the source floor first, would let a
      vote surround a pruned one. */
  lemma PruningNeedsTheSourceBound()
    ensures var v := Validator([Att(5, 10, Some("a"))], [], Some(1), Some(11), None);
            var targetOnly := v.(atts := FromTarget(v.atts, 11));
            var c := Att(3, 12, Some("b"));
            && SlashableAtts(c, v.atts[0])
            && CheckAtt(targetOnly, c, true).Stage?
            && CheckAtt(PruneValidator(v), c, true).BelowSourceWatermark?
  {
  }
}
