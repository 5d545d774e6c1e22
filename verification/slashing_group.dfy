/**
 * Who a group commit grants. The members of a drained queue are served one after the
 * other inside one transaction; here each member's reply is told from the rows, the
 * floors and the environment alone.
 */
module SlashingGroup {
  import opened Common
  import opened SlashingRules
  import opened SlashingMachine
  import opened SlashingColumns
  import opened SlashingDatabase

  // ----- when a request passes -----

  /** A vote that clears both floors, neither surrounds nor is surrounded, meets at its own
      target at most itself or a root-less row it may repeat, and is not older than
      everything on record. */
  ghost predicate VoteClear(v: Validator, c: Att, strict: bool) {
    && (v.sourceWm.Some? ==> v.sourceWm.value <= c.source)
    && (v.targetWm.Some? ==> v.targetWm.value < c.target)
    && (forall r :: r in v.atts ==> !Surrounds(c, r) && !Surrounds(r, c))
    && (forall r :: r in v.atts && r.target == c.target
          ==> SameRoot(r.root, c.root) || LenientConflict(r.root, c.root, strict))
    && (v.atts == [] || exists r :: r in v.atts && r.target <= c.target)
  }

  ghost predicate BlockClear(v: Validator, c: Block, strict: bool) {
    && (v.blockWm.Some? ==> v.blockWm.value < c.slot)
    && (forall r :: r in v.blocks && SlashableBlocks(c, r) ==> LenientConflict(r.root, c.root, strict))
    && (v.blocks == [] || exists r :: r in v.blocks && r.slot <= c.slot)
  }

  /** Where equal roots mean equal votes, a clear vote is one that is slashable with no row
      but a root-less one at its own target. */
  lemma ClearVoteIsUnslashable(v: Validator, c: Att, strict: bool)
    requires RootsFaithful(v.atts, c)
    ensures VoteClear(v, c, strict)
            <==> && (v.sourceWm.Some? ==> v.sourceWm.value <= c.source)
                 && (v.targetWm.Some? ==> v.targetWm.value < c.target)
                 && (forall r :: r in v.atts && SlashableAtts(c, r)
                         ==> r.target == c.target && LenientConflict(r.root, c.root, strict))
                 && (v.atts == [] || exists r :: r in v.atts && r.target <= c.target)
  {
  }

  /** A request passes on the rows of its key: strictly when the operator says so or the
      message's epoch has reached the Gloas fork. */
  ghost predicate Passes(k: Strictness, vals: Store, r: Request) {
    match r
    case AttRequest(pk, a) => VoteClear(Lookup(vals, pk), a, k.always || k.gloasForkEpoch <= a.target)
    case BlockRequest(pk, b) => BlockClear(Lookup(vals, pk), b, k.always || k.gloasForkEpoch <= b.slot / 32)
  }

  /** The key already has a row for the request's target or slot. */
  ghost predicate Repeats(vals: Store, r: Request) {
    match r
    case AttRequest(pk, a) => exists row :: row in Lookup(vals, pk).atts && row.target == a.target
    case BlockRequest(pk, b) => exists row :: row in Lookup(vals, pk).blocks && row.slot == b.slot
  }

  /** The store with the request's row appended under its key. */
  function WithRow(vals: Store, r: Request): Store {
    var v := Lookup(vals, r.pubkey);
    match r
    case AttRequest(pk, a) => vals[pk := v.(atts := v.atts + [a])]
    case BlockRequest(pk, b) => vals[pk := v.(blocks := v.blocks + [b])]
  }

  // ----- tables with their unique indexes, on one side of 2^63 -----

  ghost predicate IndexedValidator(z: Sides, v: Validator) {
    UniqueTargets(v.atts) && UniqueSlots(v.blocks) && ValidatorOn(z, v)
  }

  ghost predicate Indexed(z: Sides, vals: Store) {
    forall pk :: pk in vals ==> IndexedValidator(z, vals[pk])
  }

  predicate RequestOn(z: Sides, r: Request) {
    match r
    case AttRequest(_, a) => AttOn(z, a)
    case BlockRequest(_, b) => BlockOn(z, b)
  }

  lemma VoteCheckMeans(z: Sides, v: Validator, c: Att, strict: bool)
    requires IndexedValidator(z, v) && AttOn(z, c)
    ensures SqlCheckAtt(v, c, strict).Accepted() <==> VoteClear(v, c, strict)
    ensures VoteClear(v, c, strict) ==>
            (SqlCheckAtt(v, c, strict).Stage? <==> !exists r :: r in v.atts && r.target == c.target)
    ensures SqlCheckAtt(v, c, strict).Stage? ==> IndexedValidator(z, v.(atts := v.atts + [c]))
  {
    CheckAttAgrees(z, v, c, strict);
  }

  lemma BlockCheckMeans(z: Sides, v: Validator, c: Block, strict: bool)
    requires IndexedValidator(z, v) && BlockOn(z, c)
    ensures SqlCheckBlk(v, c, strict).Accepted() <==> BlockClear(v, c, strict)
    ensures BlockClear(v, c, strict) ==>
            (SqlCheckBlk(v, c, strict).StageBlock? <==> !exists r :: r in v.blocks && r.slot == c.slot)
    ensures SqlCheckBlk(v, c, strict).StageBlock? ==> IndexedValidator(z, v.(blocks := v.blocks + [c]))
  {
    CheckBlkAgrees(z, v, c, strict);
  }

  // ----- one member -----

  /** What the transaction makes of one member, from the rows, the floors and the
      environment. */
  ghost predicate ServedRight(k: Strictness, vals: Store, m: Member, after: Store, s: Served) {
    if m.goneBefore then s == Skipped && after == vals
    else if m.sqlFails then s == Broken && after == vals
    else if !Passes(k, vals, m.request) then s == Refused && after == vals
    else if m.goneDuring then s == Skipped && after == vals
    else if m.wrongChain then s == Refused && after == vals
    else if Repeats(vals, m.request) then
      s == Reserved(false) && after == vals[m.request.pubkey := Lookup(vals, m.request.pubkey)]
    else s == Reserved(true) && after == WithRow(vals, m.request)
  }

  lemma MemberServedRight(z: Sides, k: Strictness, vals: Store, m: Member)
    requires Indexed(z, vals) && RequestOn(z, m.request)
    ensures ServedRight(k, vals, m, ServeOne(k, vals, m).0, ServeOne(k, vals, m).1)
    ensures Indexed(z, ServeOne(k, vals, m).0)
  {
    var v := Lookup(vals, m.request.pubkey);
    assert IndexedValidator(z, v);
    match m.request
    case AttRequest(_, a) => VoteCheckMeans(z, v, a, k.always || k.gloasForkEpoch <= a.target);
    case BlockRequest(_, b) => BlockCheckMeans(z, v, b, k.always || k.gloasForkEpoch <= b.slot / 32);
  }

  // ----- the batch -----

  /** The store the members before `i` leave inside the transaction. */
  function Before(k: Strictness, vals: Store, batch: seq<Member>, i: nat): Store
    requires i <= |batch|
  {
    ServeAll(StepOf(k), vals, batch[..i]).0
  }

  ghost predicate BatchOn(z: Sides, batch: seq<Member>) {
    forall i :: 0 <= i < |batch| ==> RequestOn(z, batch[i].request)
  }

  /** SQLite fails under a member that is still waiting. */
  predicate Breaks(batch: seq<Member>) {
    exists i :: 0 <= i < |batch| && !batch[i].goneBefore && batch[i].sqlFails
  }

  lemma {:induction false} BatchKeepsIndexes(z: Sides, k: Strictness, vals: Store, batch: seq<Member>)
    requires Indexed(z, vals) && BatchOn(z, batch)
    ensures Indexed(z, ServeAll(StepOf(k), vals, batch).0)
    decreases |batch|
  {
    if batch != [] {
      var n := |batch| - 1;
      BatchKeepsIndexes(z, k, vals, batch[..n]);
      MemberServedRight(z, k, ServeAll(StepOf(k), vals, batch[..n]).0, batch[n]);
    }
  }

  /** The transaction breaks exactly when SQLite fails under a waiting member. */
  lemma {:induction false} BrokenIffBreaks(k: Strictness, vals: Store, batch: seq<Member>)
    ensures Broken in ServeAll(StepOf(k), vals, batch).1 <==> Breaks(batch)
    decreases |batch|
  {
    if batch != [] {
      var n := |batch| - 1;
      BrokenIffBreaks(k, vals, batch[..n]);
      var (before, served) := ServeAll(StepOf(k), vals, batch[..n]);
      var all := ServeAll(StepOf(k), vals, batch).1;
      assert all == served + [all[n]];
      if Breaks(batch[..n]) {
        var i :| 0 <= i < n && !batch[..n][i].goneBefore && batch[..n][i].sqlFails;
        assert !batch[i].goneBefore && batch[i].sqlFails;
      } else {
        assert all[n] == ServeOne(k, before, batch[n]).1;
        forall i | 0 <= i < n
          ensures batch[i].goneBefore || !batch[i].sqlFails
        {
          assert batch[..n][i] == batch[i];
        }
      }
    }
  }

  lemma {:induction false} ServedInOrder(k: Strictness, vals: Store, batch: seq<Member>, i: nat)
    requires !Breaks(batch) && i < |batch|
    ensures ServeAll(StepOf(k), vals, batch).1[i] == ServeOne(k, Before(k, vals, batch, i), batch[i]).1
    ensures Before(k, vals, batch, i + 1) == ServeOne(k, Before(k, vals, batch, i), batch[i]).0
    decreases |batch|
  {
    var n := |batch| - 1;
    BrokenIffBreaks(k, vals, batch);
    ServeLast(StepOf(k), vals, batch);
    if i < n {
      assert batch[..n][..i] == batch[..i] && batch[..n][..i + 1] == batch[..i + 1];
      ServedInOrder(k, vals, batch[..n], i);
    } else {
      assert batch[..n + 1] == batch;
    }
  }

  /** Who is granted what. In a transaction that neither breaks nor fails to commit, a
      member still waiting and on the right chain is granted exactly when its request
      passes on the store the members before it leave; its row is new exactly when that
      store has none at its target or slot, and then that row and nothing else is added. */
  lemma GrantedIff(z: Sides, k: Strictness, vals: Store, batch: seq<Member>, i: nat)
    requires Indexed(z, vals) && BatchOn(z, batch) && !Breaks(batch) && i < |batch|
    ensures var before, m := Before(k, vals, batch, i), batch[i];
            var reply := ReplyAt(StepOf(k), vals, batch, false, i);
            && (reply.Granted? <==> !m.goneBefore && !m.goneDuring && !m.wrongChain && Passes(k, before, m.request))
            && (reply.Granted? ==> (reply.inserted <==> !Repeats(before, m.request)))
            && (reply.Refusal? <==> !m.goneBefore && (Passes(k, before, m.request) ==> !m.goneDuring && m.wrongChain))
            && !reply.CommitFailed?
    ensures var before, m := Before(k, vals, batch, i), batch[i];
            var after, reply := Before(k, vals, batch, i + 1), ReplyAt(StepOf(k), vals, batch, false, i);
            forall pk :: Lookup(after, pk) == Lookup(if reply == Granted(true) then WithRow(before, m.request) else before, pk)
  {
    BrokenIffBreaks(k, vals, batch);
    ServedInOrder(k, vals, batch, i);
    assert BatchOn(z, batch[..i]);
    BatchKeepsIndexes(z, k, vals, batch[..i]);
    MemberServedRight(z, k, Before(k, vals, batch, i), batch[i]);
  }

  /** A transaction that commits nothing says so: when the commit fails although somebody
      would have been granted, the store is untouched and everybody but the refused is told. */
  lemma FailedCommitTellsEveryone(k: Strictness, vals: Store, batch: seq<Member>, i: nat)
    requires !Breaks(batch) && i < |batch|
    ensures CommitStore(StepOf(k), vals, batch, true) == vals
    ensures ReplyAt(StepOf(k), vals, batch, true, i)
            == if ReplyAt(StepOf(k), vals, batch, false, i) == Refusal then Refusal
               else if exists j :: 0 <= j < |batch| && ReplyAt(StepOf(k), vals, batch, false, j).Granted? then CommitFailed
               else Silence
  {
    BrokenIffBreaks(k, vals, batch);
    var served := ServeAll(StepOf(k), vals, batch).1;
    if AnyReserved(served) {
      var s :| s in served && s.Reserved?;
      var j :| 0 <= j < |served| && served[j] == s;
      assert ReplyAt(StepOf(k), vals, batch, false, j).Granted?;
    } else {
      forall j | 0 <= j < |batch|
        ensures !ReplyAt(StepOf(k), vals, batch, false, j).Granted?
      {
        assert served[j] in served;
      }
    }
  }

  lemma {:induction false} AfterTheBreak(k: Strictness, vals: Store, batch: seq<Member>, b: nat, i: nat)
    requires b < |batch| && !Breaks(batch[..b]) && !batch[b].goneBefore && batch[b].sqlFails && i < |batch|
    ensures var served := ServeAll(StepOf(k), vals, batch).1;
            served[i] == if i < b then ServeAll(StepOf(k), vals, batch[..b]).1[i] else if i == b then Broken else Skipped
    decreases |batch|
  {
    var n := |batch| - 1;
    if b < n {
      assert batch[..n][..b] == batch[..b];
      assert batch[..n][b] == batch[b];
      assert Breaks(batch[..n]);
      BrokenIffBreaks(k, vals, batch[..n]);
      if i < n { AfterTheBreak(k, vals, batch[..n], b, i); }
    } else {
      BrokenIffBreaks(k, vals, batch[..n]);
    }
  }

  /** A broken transaction: nothing is stored, a refusal given before the break stands, and
      everybody else is told the commit failed. */
  lemma BrokenBatchTellsEveryone(k: Strictness, vals: Store, batch: seq<Member>, commitFails: bool, b: nat, i: nat)
    requires b < |batch| && !Breaks(batch[..b]) && !batch[b].goneBefore && batch[b].sqlFails && i < |batch|
    ensures CommitStore(StepOf(k), vals, batch, commitFails) == vals
    ensures ReplyAt(StepOf(k), vals, batch, commitFails, i)
            == if i < b && ReplyAt(StepOf(k), vals, batch[..b], false, i) == Refusal then Refusal else CommitFailed
  {
    assert Breaks(batch);
    BrokenIffBreaks(k, vals, batch);
    BrokenIffBreaks(k, vals, batch[..b]);
    AfterTheBreak(k, vals, batch, b, i);
  }
}
