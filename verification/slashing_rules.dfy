/**
 * EIP-3076 rule checks of `crates/slashing/src/rules.rs`, over the history rows
 * of one validator, together with the slashing conditions they have to enforce.
 *
 * A rejection carries no witness row: the SQL queries stop at the first match in
 * an unspecified order, so only the kind of a rejection is determined.
 */
module SlashingRules {
  import opened Common

  datatype Att = Att(source: nat, target: nat, root: Option<string>)

  datatype Block = Block(slot: nat, root: Option<string>)

  datatype AttVerdict =
    | Stage
    | Duplicate
    | BelowSourceWatermark
    | BelowTargetWatermark
    | DoubleVote
    | SurroundingVote
    | SurroundedVote
    | TargetBelowMinimum
  {
    predicate Accepted() { Stage? || Duplicate? }
  }

  datatype BlockVerdict = StageBlock | Resign | BelowBlockWatermark | DoubleProposal | SlotBelowMinimum
  {
    predicate Accepted() { StageBlock? || Resign? }
  }

  // ----- slashing conditions (EIP-3076 conditions 1 and 3) -----

  /** Equal signing roots identify one and the same message. */
  predicate SameRoot(a: Option<string>, b: Option<string>) {
    a.Some? && a == b
  }

  predicate Surrounds(a: Att, b: Att) {
    a.source < b.source && b.target < a.target
  }

  predicate SlashableAtts(a: Att, b: Att) {
    !SameRoot(a.root, b.root) && (a.target == b.target || Surrounds(a, b) || Surrounds(b, a))
  }

  predicate SlashableBlocks(a: Block, b: Block) {
    !SameRoot(a.root, b.root) && a.slot == b.slot
  }

  // ----- history queries -----

  /** The unique index `(pubkey, genesis_validators_root, target_epoch)`. */
  ghost predicate UniqueTargets(rows: seq<Att>) {
    forall i, j :: 0 <= i < j < |rows| ==> rows[i].target != rows[j].target
  }

  ghost predicate UniqueSlots(rows: seq<Block>) {
    forall i, j :: 0 <= i < j < |rows| ==> rows[i].slot != rows[j].slot
  }

  function AtTarget(rows: seq<Att>, target: nat): (r: Option<Att>)
    ensures r.Some? ==> r.value in rows && r.value.target == target
    ensures r.None? ==> forall a :: a in rows ==> a.target != target
  {
    if rows == [] then None
    else if rows[0].target == target then Some(rows[0])
    else AtTarget(rows[1..], target)
  }

  function AtSlot(rows: seq<Block>, slot: nat): (r: Option<Block>)
    ensures r.Some? ==> r.value in rows && r.value.slot == slot
    ensures r.None? ==> forall b :: b in rows ==> b.slot != slot
  {
    if rows == [] then None
    else if rows[0].slot == slot then Some(rows[0])
    else AtSlot(rows[1..], slot)
  }

  predicate SurroundsSome(rows: seq<Att>, c: Att) {
    exists r :: r in rows && Surrounds(c, r)
  }

  predicate SurroundedBySome(rows: seq<Att>, c: Att) {
    exists r :: r in rows && Surrounds(r, c)
  }

  function MinTarget(rows: seq<Att>): (m: Option<nat>)
    ensures m.None? <==> rows == []
    ensures m.Some? ==> exists a :: a in rows && a.target == m.value
    ensures m.Some? ==> forall a :: a in rows ==> m.value <= a.target
  {
    if rows == [] then None
    else
      var rest := MinTarget(rows[1..]);
      if rest.Some? && rest.value < rows[0].target then rest
      else assert rows[0] in rows; Some(rows[0].target)
  }

  function MinSlot(rows: seq<Block>): (m: Option<nat>)
    ensures m.None? <==> rows == []
    ensures m.Some? ==> exists b :: b in rows && b.slot == m.value
    ensures m.Some? ==> forall b :: b in rows ==> m.value <= b.slot
  {
    if rows == [] then None
    else
      var rest := MinSlot(rows[1..]);
      if rest.Some? && rest.value < rows[0].slot then rest
      else assert rows[0] in rows; Some(rows[0].slot)
  }

  // ----- the checks -----

  /** A row at the candidate's target is a re-sign when the roots agree, or when
      both are missing and the check is lenient. */
  predicate IsResign(existing: Option<string>, candidate: Option<string>, strict: bool) {
    SameRoot(existing, candidate) || (existing.None? && candidate.None? && !strict)
  }

  /** What a history answers about a candidate vote; `check_attestation` is generic in it. */
  datatype AttAnswers = AttAnswers(atTarget: Option<Att>, surrounding: bool, surrounded: bool, minTarget: Option<nat>)

  datatype BlockAnswers = BlockAnswers(atSlot: Option<Block>, minSlot: Option<nat>)

  function DecideAttestation(h: AttAnswers, sourceWm: Option<nat>, targetWm: Option<nat>,
                             c: Att, strict: bool): AttVerdict {
    if sourceWm.Some? && c.source < sourceWm.value then BelowSourceWatermark
    else if targetWm.Some? && c.target <= targetWm.value then BelowTargetWatermark
    else if h.atTarget.Some? && !IsResign(h.atTarget.value.root, c.root, strict) then DoubleVote
    else if h.surrounding then SurroundingVote
    else if h.surrounded then SurroundedVote
    else if h.atTarget.Some? then Duplicate
    else if h.minTarget.Some? && c.target < h.minTarget.value then TargetBelowMinimum
    else Stage
  }

  function DecideBlock(h: BlockAnswers, blockWm: Option<nat>, c: Block, strict: bool): BlockVerdict {
    if blockWm.Some? && c.slot <= blockWm.value then BelowBlockWatermark
    else if h.atSlot.Some? then
      if IsResign(h.atSlot.value.root, c.root, strict) then Resign else DoubleProposal
    else if h.minSlot.Some? && c.slot < h.minSlot.value then SlotBelowMinimum
    else StageBlock
  }

  /** The full-scan history: every comparison is one of `u64` values. */
  function FullScanAtts(rows: seq<Att>, c: Att): AttAnswers {
    AttAnswers(AtTarget(rows, c.target), SurroundsSome(rows, c), SurroundedBySome(rows, c), MinTarget(rows))
  }

  function FullScanBlocks(rows: seq<Block>, c: Block): BlockAnswers {
    BlockAnswers(AtSlot(rows, c.slot), MinSlot(rows))
  }

  function CheckAttestation(rows: seq<Att>, sourceWm: Option<nat>, targetWm: Option<nat>,
                            c: Att, strict: bool): AttVerdict {
    DecideAttestation(FullScanAtts(rows, c), sourceWm, targetWm, c, strict)
  }

  function CheckBlock(rows: seq<Block>, blockWm: Option<nat>, c: Block, strict: bool): BlockVerdict {
    DecideBlock(FullScanBlocks(rows, c), blockWm, c, strict)
  }

  // ----- what the checks decide -----

  /** A signing root is the hash of the signed data, so equal roots mean equal data. */
  ghost predicate RootsFaithful(rows: seq<Att>, c: Att) {
    forall r :: r in rows && SameRoot(r.root, c.root) ==> r.source == c.source && r.target == c.target
  }

  /** An accepted vote is slashable against the history exactly in the lenient
      case where neither the vote nor the row at its target carries a root. */
  lemma AcceptedAttestationSlashableIff(rows: seq<Att>, sourceWm: Option<nat>, targetWm: Option<nat>,
                                        c: Att, strict: bool)
    requires UniqueTargets(rows)
    requires CheckAttestation(rows, sourceWm, targetWm, c, strict).Accepted()
    ensures (exists r :: r in rows && SlashableAtts(c, r))
            <==> (c.root.None? && !strict && exists r :: r in rows && r.target == c.target)
  {
  }

  /** The lenient default lets two different root-less votes at one target through. */
  lemma LenientRootlessDoubleVote()
    ensures CheckAttestation([Att(1, 9, None)], None, None, Att(5, 9, None), false).Accepted()
    ensures SlashableAtts(Att(1, 9, None), Att(5, 9, None))
  {
  }

  /** The block twin: slashable exactly in the lenient case without a root at a recorded slot. */
  lemma AcceptedBlockSlashableIff(rows: seq<Block>, blockWm: Option<nat>, c: Block, strict: bool)
    requires UniqueSlots(rows)
    requires CheckBlock(rows, blockWm, c, strict).Accepted()
    ensures (exists r :: r in rows && SlashableBlocks(c, r))
            <==> (c.root.None? && !strict && exists r :: r in rows && r.slot == c.slot)
  {
  }

  /** The lenient default re-signs a root-less block at a recorded slot without comparing anything. */
  lemma LenientRootlessDoubleProposal()
    ensures CheckBlock([Block(9, None)], None, Block(9, None), false) == Resign
    ensures SlashableBlocks(Block(9, None), Block(9, None))
  {
  }

  /** A conflict the lenient check lets pass: two root-less messages under one key. */
  predicate LenientConflict(a: Option<string>, b: Option<string>, strict: bool) {
    !strict && a.None? && b.None?
  }

  /** The check accepts exactly the votes that clear both floors, form no slashable pair
      with the history except a lenient root-less repeat of a target, and are not older
      than everything on record. */
  lemma CheckAttestationExact(rows: seq<Att>, sourceWm: Option<nat>, targetWm: Option<nat>,
                              c: Att, strict: bool)
    requires UniqueTargets(rows) && RootsFaithful(rows, c)
    ensures CheckAttestation(rows, sourceWm, targetWm, c, strict).Accepted()
            <==> && (sourceWm.Some? ==> sourceWm.value <= c.source)
                 && (targetWm.Some? ==> targetWm.value < c.target)
                 && (forall r :: r in rows && SlashableAtts(c, r)
                         ==> r.target == c.target && LenientConflict(r.root, c.root, strict))
                 && (rows == [] || exists r :: r in rows && r.target <= c.target)
  {
  }

  lemma CheckBlockExact(rows: seq<Block>, blockWm: Option<nat>, c: Block, strict: bool)
    requires UniqueSlots(rows)
    ensures CheckBlock(rows, blockWm, c, strict).Accepted()
            <==> && (blockWm.Some? ==> blockWm.value < c.slot)
                 && (forall r :: r in rows && SlashableBlocks(c, r) ==> LenientConflict(r.root, c.root, strict))
                 && (rows == [] || exists r :: r in rows && r.slot <= c.slot)
  {
  }
}
