/**
 * `SlashingDb`: the store of every validator's history, mutated in place under one
 * connection lock. Each method is one transaction; what it does to one pubkey is the
 * matching operation of `SlashingColumns`, and it leaves every other pubkey alone.
 */
module SlashingDatabase {
  import opened Common
  import opened SlashingRules
  import opened SlashingMachine
  import opened SlashingColumns

  type Store = map<string, Validator>

  function Lookup(vals: Store, pubkey: string): Validator {
    if pubkey in vals then vals[pubkey] else NoHistory
  }

  const SLOTS_PER_EPOCH: nat := 32

  /** Operator strictness, and the epoch from which the check is strict regardless. */
  datatype Strictness = Strictness(always: bool, gloasForkEpoch: nat) {
    predicate At(epoch: nat) { always || gloasForkEpoch <= epoch }
  }

  // ----- group commit -----

  datatype Request = AttRequest(pubkey: string, att: Att) | BlockRequest(pubkey: string, block: Block)

  /** One queued reserve. The flags are what the environment may do to it: drop the
      waiter before or during the rule check, present another chain's genesis root,
      or make SQLite fail. */
  datatype Member = Member(request: Request, goneBefore: bool, goneDuring: bool, wrongChain: bool, sqlFails: bool)

  datatype Served = Skipped | Refused | Reserved(inserted: bool) | Broken

  datatype Reply = Silence | Refusal | Granted(inserted: bool) | CommitFailed

  function Accepts(k: Strictness, vals: Store, r: Request): bool {
    match r
    case AttRequest(pk, a) => SqlCheckAtt(Lookup(vals, pk), a, k.At(a.target)).Accepted()
    case BlockRequest(pk, b) => SqlCheckBlk(Lookup(vals, pk), b, k.At(b.slot / SLOTS_PER_EPOCH)).Accepted()
  }

  /** Whether an accepted request is a new row rather than a repeat. */
  function IsNew(k: Strictness, vals: Store, r: Request): bool {
    match r
    case AttRequest(pk, a) => SqlCheckAtt(Lookup(vals, pk), a, k.At(a.target)).Stage?
    case BlockRequest(pk, b) => SqlCheckBlk(Lookup(vals, pk), b, k.At(b.slot / SLOTS_PER_EPOCH)).StageBlock?
  }

  function Insert(k: Strictness, vals: Store, r: Request): Store {
    match r
    case AttRequest(pk, a) => vals[pk := SqlReserveAtt(Lookup(vals, pk), a, k.At(a.target))]
    case BlockRequest(pk, b) => vals[pk := SqlReserveBlk(Lookup(vals, pk), b, k.At(b.slot / SLOTS_PER_EPOCH))]
  }

  /** One member inside the open transaction. */
  function ServeOne(k: Strictness, vals: Store, m: Member): (Store, Served) {
    if m.goneBefore then (vals, Skipped)
    else if m.sqlFails then (vals, Broken)
    else if !Accepts(k, vals, m.request) then (vals, Refused)
    else if m.goneDuring then (vals, Skipped)
    else if m.wrongChain then (vals, Refused)
    else (Insert(k, vals, m.request), Reserved(IsNew(k, vals, m.request)))
  }

  /** How a transaction treats one member. */
  type Step = (Store, Member) -> (Store, Served)

  function StepOf(k: Strictness): Step {
    (vals: Store, m: Member) => ServeOne(k, vals, m)
  }

  /** A step that reserves nothing changes nothing. */
  ghost predicate Quiet(step: Step) {
    forall vals, m :: !step(vals, m).1.Reserved? ==> step(vals, m).0 == vals
  }

  lemma StepOfIsQuiet(k: Strictness)
    ensures Quiet(StepOf(k))
  {
  }

  /** The whole batch; nobody is served after the transaction broke. */
  function ServeAll(step: Step, vals: Store, batch: seq<Member>): (r: (Store, seq<Served>))
    ensures |r.1| == |batch|
    decreases |batch|
  {
    if batch == [] then (vals, [])
    else
      var n := |batch| - 1;
      var (before, served) := ServeAll(step, vals, batch[..n]);
      if Broken in served then (before, served + [Skipped])
      else
        var (after, s) := step(before, batch[n]);
        (after, served + [s])
  }

  predicate AnyReserved(served: seq<Served>) {
    exists s :: s in served && s.Reserved?
  }

  /** The transaction commits only if nothing broke and somebody reserved. */
  predicate Persists(served: seq<Served>, commitFails: bool) {
    Broken !in served && AnyReserved(served) && !commitFails
  }

  predicate Failed(served: seq<Served>, commitFails: bool) {
    Broken in served || (AnyReserved(served) && commitFails)
  }

  function ReplyTo(s: Served, failed: bool): Reply {
    match s
    case Refused => Refusal
    case Reserved(inserted) => if failed then CommitFailed else Granted(inserted)
    case _ => if failed then CommitFailed else Silence
  }

  /** What a transaction leaves behind: all of its work, or nothing. */
  function CommitStore(step: Step, vals: Store, batch: seq<Member>, commitFails: bool): Store {
    var (after, served) := ServeAll(step, vals, batch);
    if Persists(served, commitFails) then after else vals
  }

  function ReplyAt(step: Step, vals: Store, batch: seq<Member>, commitFails: bool, i: nat): Reply
    requires i < |batch|
  {
    var (_, served) := ServeAll(step, vals, batch);
    ReplyTo(served[i], Failed(served, commitFails))
  }

  /** Every member in a transaction of its own, in queue order. */
  function SerialStore(step: Step, vals: Store, batch: seq<Member>): Store
    decreases |batch|
  {
    if batch == [] then vals
    else CommitStore(step, SerialStore(step, vals, batch[..|batch| - 1]), [batch[|batch| - 1]], false)
  }

  lemma {:induction false} ServeAlone(step: Step, vals: Store, m: Member)
    ensures ServeAll(step, vals, [m]) == (step(vals, m).0, [step(vals, m).1])
  {
    assert [m][..0] == [];
    assert ServeAll(step, vals, [m][..0]) == (vals, []);
    assert [] + [step(vals, m).1] == [step(vals, m).1];
  }

  /** One member alone: its work is its own transaction's, and so is its reply. */
  lemma Alone(step: Step, vals: Store, m: Member)
    requires Quiet(step) && !step(vals, m).1.Broken?
    ensures CommitStore(step, vals, [m], false) == step(vals, m).0
    ensures ReplyAt(step, vals, [m], false, 0) == ReplyTo(step(vals, m).1, false)
  {
    ServeAlone(step, vals, m);
    assert step(vals, m).1 in [step(vals, m).1];
  }

  lemma {:induction false} ServeLast(step: Step, vals: Store, batch: seq<Member>)
    requires batch != [] && Broken !in ServeAll(step, vals, batch).1
    ensures var n := |batch| - 1;
            var (before, served) := ServeAll(step, vals, batch[..n]);
            && Broken !in served && !step(before, batch[n]).1.Broken?
            && ServeAll(step, vals, batch) == (step(before, batch[n]).0, served + [step(before, batch[n]).1])
  {
    var n := |batch| - 1;
    var served := ServeAll(step, vals, batch[..n]).1;
    var all := ServeAll(step, vals, batch).1;
    assert forall s :: s in served ==> s in all;
    assert all[n] in all;
  }

  lemma {:induction false} ServedSerially(step: Step, vals: Store, batch: seq<Member>)
    requires Quiet(step) && Broken !in ServeAll(step, vals, batch).1
    ensures ServeAll(step, vals, batch).0 == SerialStore(step, vals, batch)
    decreases |batch|
  {
    if batch != [] {
      var n := |batch| - 1;
      ServeLast(step, vals, batch);
      ServedSerially(step, vals, batch[..n]);
      Alone(step, SerialStore(step, vals, batch[..n]), batch[n]);
    }
  }

  lemma {:induction false} ServedAt(step: Step, vals: Store, batch: seq<Member>, i: nat)
    requires Quiet(step) && Broken !in ServeAll(step, vals, batch).1 && i < |batch|
    ensures ServeAll(step, vals, batch).1[i] == step(SerialStore(step, vals, batch[..i]), batch[i]).1
    decreases |batch|
  {
    var n := |batch| - 1;
    ServeLast(step, vals, batch);
    if i < n {
      assert batch[..n][..i] == batch[..i];
      ServedAt(step, vals, batch[..n], i);
    } else {
      ServedSerially(step, vals, batch[..n]);
    }
  }

  /** Nothing reserved, nothing changed. */
  lemma {:induction false} UnreservedLeavesStore(step: Step, vals: Store, batch: seq<Member>)
    requires Quiet(step) && !AnyReserved(ServeAll(step, vals, batch).1)
    ensures ServeAll(step, vals, batch).0 == vals
    decreases |batch|
  {
    if batch != [] {
      var n := |batch| - 1;
      var (before, served) := ServeAll(step, vals, batch[..n]);
      var all := ServeAll(step, vals, batch).1;
      assert forall s :: s in served ==> s in all;
      assert all[n] in all;
      UnreservedLeavesStore(step, vals, batch[..n]);
    }
  }

  /** Grouping is transparent: a batch that does not break leaves the store, and gives each
      member the reply, that one transaction per member in queue order would have. */
  lemma {:induction false} GroupCommitIsSerial(k: Strictness, vals: Store, batch: seq<Member>, i: nat)
    requires Broken !in ServeAll(StepOf(k), vals, batch).1 && i < |batch|
    ensures CommitStore(StepOf(k), vals, batch, false) == SerialStore(StepOf(k), vals, batch)
    ensures ReplyAt(StepOf(k), vals, batch, false, i)
            == ReplyAt(StepOf(k), SerialStore(StepOf(k), vals, batch[..i]), [batch[i]], false, 0)
  {
    StepOfIsQuiet(k);
    SerialCommit(StepOf(k), vals, batch, i);
  }

  lemma {:induction false} SerialCommit(step: Step, vals: Store, batch: seq<Member>, i: nat)
    requires Quiet(step) && Broken !in ServeAll(step, vals, batch).1 && i < |batch|
    ensures CommitStore(step, vals, batch, false) == SerialStore(step, vals, batch)
    ensures ReplyAt(step, vals, batch, false, i) == ReplyAt(step, SerialStore(step, vals, batch[..i]), [batch[i]], false, 0)
  {
    var served := ServeAll(step, vals, batch).1;
    ServedSerially(step, vals, batch);
    ServedAt(step, vals, batch, i);
    if !AnyReserved(served) { UnreservedLeavesStore(step, vals, batch); }
    assert served[i] in served;
    Alone(step, SerialStore(step, vals, batch[..i]), batch[i]);
  }

  ghost predicate Recorded(vals: Store, r: Request) {
    match r
    case AttRequest(pk, a) => a in Lookup(vals, pk).atts
    case BlockRequest(pk, b) => b in Lookup(vals, pk).blocks
  }

  ghost predicate HonestRequest(roots: Roots, r: Request) {
    match r
    case AttRequest(_, a) => HonestAtt(roots, a)
    case BlockRequest(_, b) => HonestBlock(roots, b)
  }

  ghost predicate GoodStore(roots: Roots, vals: Store) {
    forall pk :: pk in vals ==> GoodRows(roots, vals[pk])
  }

  /** An accepted request leaves good rows with the request among them, on either side of
      2^63: only equality of columns decides this. */
  lemma SqlReserveAttRecords(k: Roots, v: Validator, c: Att, strict: bool)
    requires GoodRows(k, v) && HonestAtt(k, c) && SqlCheckAtt(v, c, strict).Accepted()
    ensures GoodRows(k, SqlReserveAtt(v, c, strict)) && c in SqlReserveAtt(v, c, strict).atts
    ensures forall a :: a in v.atts ==> a in SqlReserveAtt(v, c, strict).atts
  {
  }

  lemma SqlReserveBlkRecords(k: Roots, v: Validator, c: Block, strict: bool)
    requires GoodRows(k, v) && HonestBlock(k, c) && SqlCheckBlk(v, c, strict).Accepted()
    ensures GoodRows(k, SqlReserveBlk(v, c, strict)) && c in SqlReserveBlk(v, c, strict).blocks
    ensures forall b :: b in v.blocks ==> b in SqlReserveBlk(v, c, strict).blocks
  {
  }

  lemma GrowingKeepsStore(roots: Roots, vals: Store, pubkey: string, w: Validator)
    requires GoodStore(roots, vals) && GoodRows(roots, w)
    requires forall a :: a in Lookup(vals, pubkey).atts ==> a in w.atts
    requires forall b :: b in Lookup(vals, pubkey).blocks ==> b in w.blocks
    ensures GoodStore(roots, vals[pubkey := w])
    ensures forall r :: Recorded(vals, r) ==> Recorded(vals[pubkey := w], r)
  {
  }

  lemma ServeOneKeeps(roots: Roots, k: Strictness, vals: Store, m: Member)
    requires GoodStore(roots, vals) && HonestRequest(roots, m.request)
    ensures GoodStore(roots, ServeOne(k, vals, m).0)
    ensures forall r :: Recorded(vals, r) ==> Recorded(ServeOne(k, vals, m).0, r)
    ensures ServeOne(k, vals, m).1.Reserved? ==> Recorded(ServeOne(k, vals, m).0, m.request)
  {
    var v := Lookup(vals, m.request.pubkey);
    assert GoodRows(roots, v);
    if ServeOne(k, vals, m).1.Reserved? {
      match m.request
      case AttRequest(pk, a) =>
        SqlReserveAttRecords(roots, v, a, k.At(a.target));
        GrowingKeepsStore(roots, vals, pk, SqlReserveAtt(v, a, k.At(a.target)));
      case BlockRequest(pk, b) =>
        var strict := k.At(b.slot / SLOTS_PER_EPOCH);
        SqlReserveBlkRecords(roots, v, b, strict);
        GrowingKeepsStore(roots, vals, pk, SqlReserveBlk(v, b, strict));
    }
  }

  /** Commit before sign: every member the batch reserves has its message on record
      in the store the batch commits. */
  lemma {:induction false} ReservedMembersAreRecorded(roots: Roots, k: Strictness, vals: Store, batch: seq<Member>)
    requires GoodStore(roots, vals) && forall m :: m in batch ==> HonestRequest(roots, m.request)
    ensures GoodStore(roots, ServeAll(StepOf(k), vals, batch).0)
    ensures forall i :: 0 <= i < |batch| && ServeAll(StepOf(k), vals, batch).1[i].Reserved?
              ==> Recorded(ServeAll(StepOf(k), vals, batch).0, batch[i].request)
    decreases |batch|
  {
    if batch != [] {
      var n := |batch| - 1;
      var (before, served) := ServeAll(StepOf(k), vals, batch[..n]);
      assert forall m :: m in batch[..n] ==> m in batch;
      ReservedMembersAreRecorded(roots, k, vals, batch[..n]);
      assert batch[n] in batch;
      ServeOneKeeps(roots, k, before, batch[n]);
      forall i | 0 <= i < n && served[i].Reserved?
        ensures Recorded(ServeAll(StepOf(k), vals, batch).0, batch[i].request)
      {
        assert Recorded(before, batch[..n][i].request);
      }
    }
  }

  // ----- the database object -----

  datatype ReconcileOutcome = Deleted | NotApplicable | ReconcileFailed

  datatype ImportEntry = ImportEntry(pubkey: string, atts: seq<Att>, blocks: seq<Block>)

  function ImportAll(vals: Store, file: seq<ImportEntry>): Store
    decreases |file|
  {
    if file == [] then vals
    else
      var before := ImportAll(vals, file[..|file| - 1]);
      var e := file[|file| - 1];
      before[e.pubkey := SqlImport(Lookup(before, e.pubkey), e.atts, e.blocks)]
  }

  predicate HasWatermark(v: Validator) {
    v.sourceWm.Some? || v.targetWm.Some? || v.blockWm.Some?
  }

  predicate AnyWatermark(vals: Store) {
    exists pk :: pk in vals && HasWatermark(vals[pk])
  }

  /** Refused without any watermark; otherwise every validator is pruned. */
  function PruneStore(vals: Store): Store {
    if AnyWatermark(vals) then map pk | pk in vals :: SqlPrune(vals[pk]) else vals
  }

  function WithoutRow(v: Validator, r: Request): Validator {
    match r
    case AttRequest(_, a) => v.(atts := DeleteAtt(v.atts, a))
    case BlockRequest(_, b) => v.(blocks := DeleteBlk(v.blocks, b))
  }

  function RowsDeleted(v: Validator, r: Request): int {
    var w := WithoutRow(v, r);
    |v.atts| - |w.atts| + |v.blocks| - |w.blocks|
  }

  function ReconcileResult(vals: Store, r: Request, inserted: bool, sqlFails: bool): ReconcileOutcome {
    if !inserted then NotApplicable
    else if sqlFails || RowsDeleted(Lookup(vals, r.pubkey), r) > 1 then ReconcileFailed
    else if RowsDeleted(Lookup(vals, r.pubkey), r) == 0 then NotApplicable
    else Deleted
  }

  /** The compensating delete of a reservation that was never signed. */
  function ReconcileStore(vals: Store, r: Request, inserted: bool, sqlFails: bool): Store {
    if ReconcileResult(vals, r, inserted, sqlFails).Deleted?
    then vals[r.pubkey := WithoutRow(Lookup(vals, r.pubkey), r)] else vals
  }

  class SlashingDb {
    var vals: Store
    var strictness: Strictness

    constructor (strictness: Strictness)
      ensures vals == map[] && this.strictness == strictness
    {
      vals := map[];
      this.strictness := strictness;
    }

    /** One `BEGIN IMMEDIATE … COMMIT` for a drained queue. Nobody is granted anything
        unless the whole transaction committed; a refused member keeps its refusal. */
    method CommitBatch(batch: seq<Member>, commitFails: bool) returns (replies: seq<Reply>)
      modifies this`vals
      ensures vals == CommitStore(StepOf(strictness), old(vals), batch, commitFails)
      ensures |replies| == |batch|
      ensures forall i :: 0 <= i < |batch| ==> replies[i] == ReplyAt(StepOf(strictness), old(vals), batch, commitFails, i)
      ensures (exists i :: 0 <= i < |batch| && replies[i].Granted?)
                ==> vals == ServeAll(StepOf(strictness), old(vals), batch).0
    {
      var work := vals;
      var served: seq<Served> := [];
      var broken := false;
      for i := 0 to |batch|
        invariant |served| == i
        invariant (work, served) == ServeAll(StepOf(strictness), vals, batch[..i])
        invariant broken <==> Broken in served
      {
        assert batch[..i + 1][..i] == batch[..i];
        if broken {
          served := served + [Skipped];
        } else {
          var (after, s) := ServeOne(strictness, work, batch[i]);
          work, served, broken := after, served + [s], s.Broken?;
        }
      }
      assert batch[..|batch|] == batch;
      if !broken && AnyReserved(served) && !commitFails {
        vals := work;
      }
      var failed := Failed(served, commitFails);
      replies := seq(|batch|, i requires 0 <= i < |served| => ReplyTo(served[i], failed));
      forall i | 0 <= i < |batch| && replies[i].Granted?
        ensures Persists(served, commitFails)
      {
        assert served[i] in served;
      }
    }

    /** Compensating delete of a reservation that was never signed. A repeat owns no
        row, and a failed delete retains it. */
    method ReconcileUnsigned(r: Request, inserted: bool, sqlFails: bool) returns (outcome: ReconcileOutcome)
      modifies this`vals
      ensures vals == ReconcileStore(old(vals), r, inserted, sqlFails)
      ensures outcome == ReconcileResult(old(vals), r, inserted, sqlFails)
      ensures outcome.Deleted? ==> inserted && Recorded(old(vals), r) && !Recorded(vals, r)
      ensures inserted && !sqlFails && outcome.NotApplicable? ==> !Recorded(vals, r)
    {
      if !inserted { return NotApplicable; }
      if sqlFails { return ReconcileFailed; }
      var v := Lookup(vals, r.pubkey);
      var w := if r.AttRequest? then v.(atts := DeleteAtt(v.atts, r.att))
               else v.(blocks := DeleteBlk(v.blocks, r.block));
      var changes := |v.atts| - |w.atts| + |v.blocks| - |w.blocks|;
      if changes > 1 { return ReconcileFailed; }
      DeleteNothing(v.atts, v.blocks, r);
      if changes == 0 { return NotApplicable; }
      vals := vals[r.pubkey := w];
      outcome := Deleted;
    }

    /** Refused without any watermark; otherwise every validator is pruned. */
    method PruneBelowWatermarks() returns (ok: bool)
      modifies this`vals
      ensures ok == AnyWatermark(old(vals))
      ensures vals == PruneStore(old(vals))
    {
      if !exists pk :: pk in vals && HasWatermark(vals[pk]) { return false; }
      var todo := vals.Keys;
      while todo != {}
        invariant todo <= old(vals).Keys == vals.Keys
        invariant forall pk :: pk in todo ==> vals[pk] == old(vals)[pk]
        invariant forall pk :: pk in vals && pk !in todo ==> vals[pk] == SqlPrune(old(vals)[pk])
        decreases |todo|
      {
        var pk :| pk in todo;
        vals := vals[pk := SqlPrune(vals[pk])];
        todo := todo - {pk};
      }
      ok := true;
    }

    /** One transaction over the whole file, record by record. */
    method ImportFile(file: seq<ImportEntry>)
      modifies this`vals
      ensures vals == ImportAll(old(vals), file)
    {
      for i := 0 to |file|
        invariant vals == ImportAll(old(vals), file[..i])
      {
        assert file[..i + 1][..i] == file[..i];
        var e := file[i];
        vals := vals[e.pubkey := SqlImport(Lookup(vals, e.pubkey), e.atts, e.blocks)];
      }
      assert file[..|file|] == file;
    }
  }

  lemma {:induction false} DeleteNothing(atts: seq<Att>, blocks: seq<Block>, r: Request)
    ensures r.AttRequest? ==> |DeleteAtt(atts, r.att)| <= |atts|
    ensures r.AttRequest? ==> (|DeleteAtt(atts, r.att)| == |atts| <==> r.att !in atts)
    ensures r.AttRequest? && r.att !in atts ==> DeleteAtt(atts, r.att) == atts
    ensures r.BlockRequest? ==> |DeleteBlk(blocks, r.block)| <= |blocks|
    ensures r.BlockRequest? ==> (|DeleteBlk(blocks, r.block)| == |blocks| <==> r.block !in blocks)
    ensures r.BlockRequest? && r.block !in blocks ==> DeleteBlk(blocks, r.block) == blocks
    decreases |atts| + |blocks|
  {
    if r.AttRequest? && atts != [] {
      DeleteNothing(atts[1..], blocks, r);
    } else if r.BlockRequest? && blocks != [] {
      DeleteNothing(atts, blocks[1..], r);
    }
  }

  // ----- importing a file -----

  ghost predicate StoreOn(z: Sides, vals: Store) {
    forall pk :: pk in vals ==> ValidatorOn(z, vals[pk])
  }

  predicate EntryOn(z: Sides, e: ImportEntry) {
    AttsOn(z, e.atts) && BlocksOn(z, e.blocks)
  }

  predicate FileOn(z: Sides, file: seq<ImportEntry>) {
    forall i :: 0 <= i < |file| ==> EntryOn(z, file[i])
  }

  lemma {:induction false} ImportKeepsStore(roots: Roots, z: Sides, vals: Store, file: seq<ImportEntry>)
    requires GoodStore(roots, vals) && StoreOn(z, vals) && FileOn(z, file)
    ensures GoodStore(roots, ImportAll(vals, file)) && StoreOn(z, ImportAll(vals, file))
    decreases |file|
  {
    if file != [] {
      var n := |file| - 1;
      ImportKeepsStore(roots, z, vals, file[..n]);
      var v := Lookup(ImportAll(vals, file[..n]), file[n].pubkey);
      assert GoodRows(roots, v) && EntryOn(z, file[n]);
      ImportAgrees(z, v, file[n].atts, file[n].blocks);
      ImportKeeps(roots, v, file[n].atts, file[n].blocks);
    }
  }

  lemma {:induction false} ImportStaysOn(z: Sides, vals: Store, file: seq<ImportEntry>)
    requires StoreOn(z, vals) && FileOn(z, file)
    ensures StoreOn(z, ImportAll(vals, file))
    decreases |file|
  {
    if file != [] {
      var n := |file| - 1;
      ImportStaysOn(z, vals, file[..n]);
      assert EntryOn(z, file[n]);
      ImportAgrees(z, Lookup(ImportAll(vals, file[..n]), file[n].pubkey), file[n].atts, file[n].blocks);
    }
  }

  /** What the last record of a file does to one validator. */
  lemma {:induction false} LastRecord(z: Sides, vals: Store, file: seq<ImportEntry>, pubkey: string)
    requires file != [] && StoreOn(z, vals) && FileOn(z, file)
    ensures var n := |file| - 1;
            var v := Lookup(ImportAll(vals, file[..n]), pubkey);
            Lookup(ImportAll(vals, file), pubkey)
            == if file[n].pubkey == pubkey then ImportRecord(v, file[n].atts, file[n].blocks) else v
  {
    var n := |file| - 1;
    ImportStaysOn(z, vals, file[..n]);
    assert EntryOn(z, file[n]);
    ImportAgrees(z, Lookup(ImportAll(vals, file[..n]), file[n].pubkey), file[n].atts, file[n].blocks);
  }

  lemma {:induction false} LastRecordCoversVote(z: Sides, vals: Store, file: seq<ImportEntry>, pubkey: string, a: Att)
    requires file != [] && StoreOn(z, vals) && FileOn(z, file)
    requires || AttUnderFloor(Lookup(ImportAll(vals, file[..|file| - 1]), pubkey), a)
             || (file[|file| - 1].pubkey == pubkey && a in file[|file| - 1].atts)
    ensures AttUnderFloor(Lookup(ImportAll(vals, file), pubkey), a)
  {
    LastRecord(z, vals, file, pubkey);
  }

  lemma {:induction false} LastRecordCoversBlock(z: Sides, vals: Store, file: seq<ImportEntry>, pubkey: string, b: Block)
    requires file != [] && StoreOn(z, vals) && FileOn(z, file)
    requires || BlockUnderFloor(Lookup(ImportAll(vals, file[..|file| - 1]), pubkey), b)
             || (file[|file| - 1].pubkey == pubkey && b in file[|file| - 1].blocks)
    ensures BlockUnderFloor(Lookup(ImportAll(vals, file), pubkey), b)
  {
    LastRecord(z, vals, file, pubkey);
  }

  /** Import reaches every record of the file: afterwards the validator's floors lie
      at or above everything the file reports for it. */
  lemma {:induction false} ImportCoversVotes(z: Sides, vals: Store, file: seq<ImportEntry>, i: nat,
                                             pubkey: string, a: Att)
    requires StoreOn(z, vals) && FileOn(z, file)
    requires i < |file| && file[i].pubkey == pubkey && a in file[i].atts
    ensures AttUnderFloor(Lookup(ImportAll(vals, file), pubkey), a)
    decreases |file|
  {
    var n := |file| - 1;
    if i < n {
      assert file[..n][i] == file[i];
      ImportCoversVotes(z, vals, file[..n], i, pubkey, a);
    }
    LastRecordCoversVote(z, vals, file, pubkey, a);
  }

  lemma {:induction false} ImportCoversBlocks(z: Sides, vals: Store, file: seq<ImportEntry>, i: nat,
                                              pubkey: string, b: Block)
    requires StoreOn(z, vals) && FileOn(z, file)
    requires i < |file| && file[i].pubkey == pubkey && b in file[i].blocks
    ensures BlockUnderFloor(Lookup(ImportAll(vals, file), pubkey), b)
    decreases |file|
  {
    var n := |file| - 1;
    if i < n {
      assert file[..n][i] == file[i];
      ImportCoversBlocks(z, vals, file[..n], i, pubkey, b);
    }
    LastRecordCoversBlock(z, vals, file, pubkey, b);
  }
}
