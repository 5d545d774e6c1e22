/**
 * The whole store as a state machine: group commits over many validators, compensating
 * deletes, prunes and file imports, each one transaction of `SlashingDb`, interleaved with
 * what the signers of the granted reservations do.
 *
 * A validator's lock is held from its reserve to its reconcile, so a batch holds at most one
 * member per pubkey and none for a pubkey with a reservation out. Seen from one pubkey, a run
 * of the store is a run of that validator's machine; safety of the store follows.
 */
module SlashingStore {
  import opened Common
  import opened SlashingRules
  import opened SlashingMachine
  import opened SlashingColumns
  import opened SlashingDatabase

  /** What is known of one pubkey beside its rows. */
  datatype Span = Span(
    pending: Pending, signedAtts: set<Att>, signedBlocks: set<Block>,
    importedAtts: set<Att>, importedBlocks: set<Block>)

  const NewSpan := Span(Idle, {}, {}, {}, {})

  datatype StoreState = StoreState(vals: Store, spans: map<string, Span>)

  const Empty := StoreState(map[], map[])

  datatype StoreEvent =
    | Commit(k: Strictness, batch: seq<Member>, commitFails: bool)
    | Signed(pubkey: string)
    | Rejected(pubkey: string, sqlFails: bool)      // compensating delete
    | Ambiguous(pubkey: string, escaped: bool)      // row retained; a signature may exist
    | PruneAll
    | ImportFile(file: seq<ImportEntry>)
    | RaiseAtt(pubkey: string, source: nat, target: nat)
    | RaiseBlock(pubkey: string, slot: nat)

  function SpanOf(spans: map<string, Span>, pk: string): Span {
    if pk in spans then spans[pk] else NewSpan
  }

  /** One validator's view of the store. */
  function Project(s: StoreState, pk: string): State {
    var x := SpanOf(s.spans, pk);
    State(Lookup(s.vals, pk), x.pending, x.signedAtts, x.signedBlocks, x.importedAtts, x.importedBlocks)
  }

  // ----- steps -----

  /** Every member's lock is its own and free. */
  predicate LocksHeld(spans: map<string, Span>, batch: seq<Member>) {
    && (forall i :: 0 <= i < |batch| ==> SpanOf(spans, batch[i].request.pubkey).pending.Idle?)
    && (forall i, j :: 0 <= i < j < |batch| ==> batch[i].request.pubkey != batch[j].request.pubkey)
  }

  function Held(r: Request, inserted: bool): Pending {
    match r
    case AttRequest(_, a) => HeldAtt(a, inserted)
    case BlockRequest(_, b) => HeldBlock(b, inserted)
  }

  function Holding(spans: map<string, Span>, r: Request, inserted: bool): map<string, Span> {
    spans[r.pubkey := SpanOf(spans, r.pubkey).(pending := Held(r, inserted))]
  }

  /** Every granted member goes on holding its lock. */
  function Hold(spans: map<string, Span>, batch: seq<Member>, served: seq<Served>): map<string, Span>
    requires |served| == |batch|
    decreases |batch|
  {
    if batch == [] then spans
    else
      var n := |batch| - 1;
      var before := Hold(spans, batch[..n], served[..n]);
      if served[n].Reserved? then Holding(before, batch[n].request, served[n].inserted) else before
  }

  /** The reservation a pubkey holds, as the request it came from. */
  function RequestOf(pk: string, p: Pending): Option<(Request, bool)> {
    match p
    case Idle => None
    case HeldAtt(a, inserted) => Some((AttRequest(pk, a), inserted))
    case HeldBlock(b, inserted) => Some((BlockRequest(pk, b), inserted))
  }

  function Released(x: Span, escaped: bool): Span {
    match x.pending
    case Idle => x
    case HeldAtt(a, _) => x.(pending := Idle, signedAtts := if escaped then x.signedAtts + {a} else x.signedAtts)
    case HeldBlock(b, _) => x.(pending := Idle, signedBlocks := if escaped then x.signedBlocks + {b} else x.signedBlocks)
  }

  function Reported(spans: map<string, Span>, file: seq<ImportEntry>): map<string, Span>
    decreases |file|
  {
    if file == [] then spans
    else
      var n := |file| - 1;
      var before := Reported(spans, file[..n]);
      var e := file[n];
      var x := SpanOf(before, e.pubkey);
      before[e.pubkey := x.(importedAtts := x.importedAtts + Elements(e.atts),
                            importedBlocks := x.importedBlocks + Elements(e.blocks))]
  }

  function StoreNext(s: StoreState, e: StoreEvent): StoreState {
    match e
    case Commit(k, batch, commitFails) =>
      var served := ServeAll(StepOf(k), s.vals, batch).1;
      if !LocksHeld(s.spans, batch) || !Persists(served, commitFails) then s
      else StoreState(CommitStore(StepOf(k), s.vals, batch, commitFails), Hold(s.spans, batch, served))
    case Signed(pk) => s.(spans := s.spans[pk := Released(SpanOf(s.spans, pk), true)])
    case Ambiguous(pk, escaped) => s.(spans := s.spans[pk := Released(SpanOf(s.spans, pk), escaped)])
    case Rejected(pk, sqlFails) =>
      var held := RequestOf(pk, SpanOf(s.spans, pk).pending);
      if held.None? then s
      else StoreState(ReconcileStore(s.vals, held.value.0, held.value.1, sqlFails),
                      s.spans[pk := Released(SpanOf(s.spans, pk), false)])
    case PruneAll => s.(vals := PruneStore(s.vals))
    case ImportFile(file) => AfterImport(s, file)
    case RaiseAtt(pk, source, target) => s.(vals := s.vals[pk := SetAttWatermark(Lookup(s.vals, pk), source, target)])
    case RaiseBlock(pk, slot) => s.(vals := s.vals[pk := SetBlockWatermark(Lookup(s.vals, pk), slot)])
  }

  function StoreRun(s: StoreState, events: seq<StoreEvent>): StoreState
    decreases |events|
  {
    if events == [] then s else StoreRun(StoreNext(s, events[0]), events[1..])
  }

  // ----- what one validator sees of a step -----

  function RequestEvent(k: Strictness, r: Request): Event {
    match r
    case AttRequest(_, a) => Attest(a, k.At(a.target))
    case BlockRequest(_, b) => Propose(b, k.At(b.slot / SLOTS_PER_EPOCH))
  }

  /** The granted request of `pk`, if the batch holds one. */
  function GrantsTo(k: Strictness, batch: seq<Member>, served: seq<Served>, pk: string): seq<Event>
    requires |served| == |batch|
    decreases |batch|
  {
    if batch == [] then []
    else
      var n := |batch| - 1;
      GrantsTo(k, batch[..n], served[..n], pk)
      + if batch[n].request.pubkey == pk && served[n].Reserved? then [RequestEvent(k, batch[n].request)] else []
  }

  function ImportEvents(e: ImportEntry, pk: string): seq<Event> {
    if e.pubkey == pk then [Import(e.atts, e.blocks)] else []
  }

  function Imports(file: seq<ImportEntry>, pk: string): seq<Event>
    decreases |file|
  {
    if file == [] then []
    else
      var n := |file| - 1;
      Imports(file[..n], pk) + ImportEvents(file[n], pk)
  }

  function Seen(s: StoreState, e: StoreEvent, pk: string): seq<Event> {
    match e
    case Commit(k, batch, commitFails) =>
      var served := ServeAll(StepOf(k), s.vals, batch).1;
      if !LocksHeld(s.spans, batch) || !Persists(served, commitFails) then [] else GrantsTo(k, batch, served, pk)
    case Signed(q) => if q == pk then [SignerSucceeds] else []
    case Ambiguous(q, escaped) => if q == pk then [SignerAmbiguous(escaped)] else []
    case Rejected(q, sqlFails) =>
      var held := RequestOf(pk, SpanOf(s.spans, pk).pending);
      if q != pk || held.None? then []
      else if ReconcileResult(s.vals, held.value.0, held.value.1, sqlFails).ReconcileFailed? then [SignerAmbiguous(false)]
      else [SignerRejects]
    case PruneAll => if AnyWatermark(s.vals) then [Prune] else []
    case ImportFile(file) => Imports(file, pk)
    case RaiseAtt(q, source, target) => if q == pk then [SetAttFloor(source, target)] else []
    case RaiseBlock(q, slot) => if q == pk then [SetBlockFloor(slot)] else []
  }

  function SeenRun(s: StoreState, events: seq<StoreEvent>, pk: string): seq<Event>
    decreases |events|
  {
    if events == [] then [] else Seen(s, events[0], pk) + SeenRun(StoreNext(s, events[0]), events[1..], pk)
  }

  // ----- a batch -----

  predicate Names(batch: seq<Member>, pk: string) {
    exists i :: 0 <= i < |batch| && batch[i].request.pubkey == pk
  }

  lemma StepFrame(k: Strictness, vals: Store, m: Member, pk: string)
    requires m.request.pubkey != pk
    ensures Lookup(StepOf(k)(vals, m).0, pk) == Lookup(vals, pk)
  {
  }

  /** Validators a batch does not name see nothing of it. */
  lemma {:induction false} BatchFrame(k: Strictness, vals: Store, spans: map<string, Span>, batch: seq<Member>, pk: string)
    requires Broken !in ServeAll(StepOf(k), vals, batch).1 && !Names(batch, pk)
    ensures Lookup(ServeAll(StepOf(k), vals, batch).0, pk) == Lookup(vals, pk)
    ensures SpanOf(Hold(spans, batch, ServeAll(StepOf(k), vals, batch).1), pk) == SpanOf(spans, pk)
    ensures GrantsTo(k, batch, ServeAll(StepOf(k), vals, batch).1, pk) == []
    decreases |batch|
  {
    if batch != [] {
      var n := |batch| - 1;
      ServeLast(StepOf(k), vals, batch);
      assert ServeAll(StepOf(k), vals, batch).1[..n] == ServeAll(StepOf(k), vals, batch[..n]).1;
      assert forall i :: 0 <= i < n ==> batch[..n][i] == batch[i];
      BatchFrame(k, vals, spans, batch[..n], pk);
      StepFrame(k, ServeAll(StepOf(k), vals, batch[..n]).0, batch[n], pk);
    }
  }

  /** A granted request is the validator's own reserve step. */
  lemma GrantIsReserve(k: Strictness, s: StoreState, m: Member)
    requires SpanOf(s.spans, m.request.pubkey).pending.Idle?
    requires ServeOne(k, s.vals, m).1.Reserved?
    ensures var pk := m.request.pubkey;
            var (vals, served) := ServeOne(k, s.vals, m);
            SqlNext(Project(s, pk), RequestEvent(k, m.request))
            == Project(StoreState(vals, Holding(s.spans, m.request, served.inserted)), pk)
  {
  }

  /** The state halfway through a batch. */
  function Midway(k: Strictness, s: StoreState, batch: seq<Member>): StoreState {
    var (vals, served) := ServeAll(StepOf(k), s.vals, batch);
    StoreState(vals, Hold(s.spans, batch, served))
  }

  lemma {:induction false} MidwayLast(k: Strictness, s: StoreState, batch: seq<Member>)
    requires batch != [] && Broken !in ServeAll(StepOf(k), s.vals, batch).1
    ensures var n := |batch| - 1;
            var t := Midway(k, s, batch[..n]);
            var m := batch[n];
            var (vals, served) := ServeOne(k, t.vals, m);
            && Broken !in ServeAll(StepOf(k), s.vals, batch[..n]).1
            && ServeAll(StepOf(k), s.vals, batch).1[..n] == ServeAll(StepOf(k), s.vals, batch[..n]).1
            && ServeAll(StepOf(k), s.vals, batch).1[n] == served
            && Midway(k, s, batch)
               == StoreState(vals, if served.Reserved? then Holding(t.spans, m.request, served.inserted) else t.spans)
  {
    ServeLast(StepOf(k), s.vals, batch);
    assert ServeAll(StepOf(k), s.vals, batch).1[..|batch| - 1] == ServeAll(StepOf(k), s.vals, batch[..|batch| - 1]).1;
  }

  lemma {:induction false} BatchProjects(k: Strictness, s: StoreState, batch: seq<Member>, pk: string)
    requires LocksHeld(s.spans, batch) && Broken !in ServeAll(StepOf(k), s.vals, batch).1
    ensures Project(Midway(k, s, batch), pk)
            == SqlRun(Project(s, pk), GrantsTo(k, batch, ServeAll(StepOf(k), s.vals, batch).1, pk))
    decreases |batch|
  {
    if batch != [] {
      var n := |batch| - 1;
      var m := batch[n];
      MidwayLast(k, s, batch);
      if m.request.pubkey == pk {
        LastMemberProjects(k, s, batch);
      } else {
        BatchProjects(k, s, batch[..n], pk);
        OtherMemberProjects(k, s, batch, pk);
      }
    }
  }

  lemma OtherMemberProjects(k: Strictness, s: StoreState, batch: seq<Member>, pk: string)
    requires batch != [] && Broken !in ServeAll(StepOf(k), s.vals, batch).1
    requires batch[|batch| - 1].request.pubkey != pk
    ensures Project(Midway(k, s, batch), pk) == Project(Midway(k, s, batch[..|batch| - 1]), pk)
    ensures GrantsTo(k, batch, ServeAll(StepOf(k), s.vals, batch).1, pk)
            == GrantsTo(k, batch[..|batch| - 1], ServeAll(StepOf(k), s.vals, batch[..|batch| - 1]).1, pk)
  {
    var n := |batch| - 1;
    MidwayLast(k, s, batch);
    StepFrame(k, Midway(k, s, batch[..n]).vals, batch[n], pk);
  }

  lemma {:induction false} LastMemberProjects(k: Strictness, s: StoreState, batch: seq<Member>)
    requires batch != [] && LocksHeld(s.spans, batch) && Broken !in ServeAll(StepOf(k), s.vals, batch).1
    ensures var pk := batch[|batch| - 1].request.pubkey;
            Project(Midway(k, s, batch), pk)
            == SqlRun(Project(s, pk), GrantsTo(k, batch, ServeAll(StepOf(k), s.vals, batch).1, pk))
  {
    var n := |batch| - 1;
    var m := batch[n];
    var pk := m.request.pubkey;
    MidwayLast(k, s, batch);
    assert !Names(batch[..n], pk);
    BatchFrame(k, s.vals, s.spans, batch[..n], pk);
    var t := Midway(k, s, batch[..n]);
    assert Project(t, pk) == Project(s, pk);
    var served := ServeAll(StepOf(k), s.vals, batch).1;
    if served[n].Reserved? {
      GrantIsReserve(k, t, m);
      OneEvent(Project(s, pk), RequestEvent(k, m.request));
      assert GrantsTo(k, batch, served, pk) == [] + [RequestEvent(k, m.request)] == [RequestEvent(k, m.request)];
    } else {
      assert ServeOne(k, t.vals, m).0 == t.vals;
      assert GrantsTo(k, batch, served, pk) == [] + [] == [];
    }
  }

  lemma {:induction false} HeldAfter(spans: map<string, Span>, batch: seq<Member>, served: seq<Served>, i: nat)
    requires |served| == |batch| && i < |batch| && DistinctKeys(batch)
    ensures var pk := batch[i].request.pubkey;
            SpanOf(Hold(spans, batch, served), pk)
            == if served[i].Reserved? then SpanOf(spans, pk).(pending := Held(batch[i].request, served[i].inserted))
               else SpanOf(spans, pk)
    decreases |batch|
  {
    var n := |batch| - 1;
    if i < n {
      assert batch[..n][i] == batch[i] && served[..n][i] == served[i];
      assert DistinctKeys(batch[..n]);
      HeldAfter(spans, batch[..n], served[..n], i);
    } else {
      HoldFrame(spans, batch[..n], served[..n], batch[n].request.pubkey);
    }
  }

  lemma {:induction false} HoldFrame(spans: map<string, Span>, batch: seq<Member>, served: seq<Served>, pk: string)
    requires |served| == |batch| && forall i :: 0 <= i < |batch| ==> batch[i].request.pubkey != pk
    ensures SpanOf(Hold(spans, batch, served), pk) == SpanOf(spans, pk)
    decreases |batch|
  {
    if batch != [] {
      var n := |batch| - 1;
      assert forall i :: 0 <= i < n ==> batch[..n][i] == batch[i];
      HoldFrame(spans, batch[..n], served[..n], pk);
    }
  }

  ghost predicate DistinctKeys(batch: seq<Member>) {
    forall i, j :: 0 <= i < j < |batch| ==> batch[i].request.pubkey != batch[j].request.pubkey
  }

  /** A batch takes effect: when its members name different validators, none of which is in
      the middle of signing, the store becomes what the transaction commits, and a validator
      goes on holding exactly what it was granted. */
  lemma {:induction false} BatchTakesEffect(k: Strictness, s: StoreState, batch: seq<Member>, commitFails: bool, i: nat)
    requires i < |batch| && DistinctKeys(batch)
    requires forall j :: 0 <= j < |batch| ==> SpanOf(s.spans, batch[j].request.pubkey).pending.Idle?
    ensures var t := StoreNext(s, Commit(k, batch, commitFails));
            var pk, reply := batch[i].request.pubkey, ReplyAt(StepOf(k), s.vals, batch, commitFails, i);
            && t.vals == CommitStore(StepOf(k), s.vals, batch, commitFails)
            && SpanOf(t.spans, pk) == if reply.Granted? then SpanOf(s.spans, pk).(pending := Held(batch[i].request, reply.inserted))
                                      else SpanOf(s.spans, pk)
  {
    var served := ServeAll(StepOf(k), s.vals, batch).1;
    assert served[i] in served;
    HeldAfter(s.spans, batch, served, i);
  }

  // ----- the other transactions -----

  lemma RejectProjects(s: StoreState, pk: string, sqlFails: bool)
    ensures Project(StoreNext(s, Rejected(pk, sqlFails)), pk) == SqlRun(Project(s, pk), Seen(s, Rejected(pk, sqlFails), pk))
  {
    var held := RequestOf(pk, SpanOf(s.spans, pk).pending);
    if held.Some? {
      var v := Lookup(s.vals, pk);
      DeleteNothing(v.atts, v.blocks, held.value.0);
      OneEvent(Project(s, pk), SignerRejects);
      OneEvent(Project(s, pk), SignerAmbiguous(false));
    }
  }

  lemma PruneProjects(s: StoreState, pk: string)
    ensures Project(StoreNext(s, PruneAll), pk) == SqlRun(Project(s, pk), Seen(s, PruneAll, pk))
  {
    OneEvent(Project(s, pk), Prune);
    assert SqlPrune(NoHistory) == NoHistory;
  }

  function AfterImport(s: StoreState, file: seq<ImportEntry>): StoreState {
    StoreState(ImportAll(s.vals, file), Reported(s.spans, file))
  }

  function AfterEntry(s: StoreState, e: ImportEntry): StoreState {
    var x := SpanOf(s.spans, e.pubkey);
    StoreState(s.vals[e.pubkey := SqlImport(Lookup(s.vals, e.pubkey), e.atts, e.blocks)],
               s.spans[e.pubkey := x.(importedAtts := x.importedAtts + Elements(e.atts),
                                      importedBlocks := x.importedBlocks + Elements(e.blocks))])
  }

  lemma EntryProjects(s: StoreState, e: ImportEntry, pk: string)
    ensures Project(AfterEntry(s, e), pk)
            == if e.pubkey == pk then SqlNext(Project(s, pk), Import(e.atts, e.blocks)) else Project(s, pk)
  {
  }

  lemma LastEntry(s: StoreState, file: seq<ImportEntry>)
    requires file != []
    ensures AfterImport(s, file) == AfterEntry(AfterImport(s, file[..|file| - 1]), file[|file| - 1])
  {
  }

  lemma LastEntryProjects(s: StoreState, file: seq<ImportEntry>, pk: string)
    requires file != []
    ensures var n := |file| - 1;
            Project(AfterImport(s, file), pk)
            == SqlRun(Project(AfterImport(s, file[..n]), pk), ImportEvents(file[n], pk))
  {
    var n := |file| - 1;
    var t := AfterImport(s, file[..n]);
    LastEntry(s, file);
    EntryProjects(t, file[n], pk);
    OneEvent(Project(t, pk), Import(file[n].atts, file[n].blocks));
  }

  lemma {:induction false} ImportProjects(s: StoreState, file: seq<ImportEntry>, pk: string)
    ensures Project(AfterImport(s, file), pk) == SqlRun(Project(s, pk), Imports(file, pk))
    decreases |file|
  {
    if file != [] {
      var n := |file| - 1;
      ImportProjects(s, file[..n], pk);
      LastEntryProjects(s, file, pk);
      SqlRunConcat(Project(s, pk), Imports(file[..n], pk), ImportEvents(file[n], pk));
    }
  }

  /** One transaction or signer step, seen from one pubkey, is a run of its machine. */
  lemma StepProjects(s: StoreState, e: StoreEvent, pk: string)
    ensures Project(StoreNext(s, e), pk) == SqlRun(Project(s, pk), Seen(s, e, pk))
  {
    match e
    case Commit(k, batch, commitFails) =>
      if LocksHeld(s.spans, batch) && Persists(ServeAll(StepOf(k), s.vals, batch).1, commitFails) {
        BatchProjects(k, s, batch, pk);
      }
    case Signed(_) => OneEvent(Project(s, pk), SignerSucceeds);
    case Ambiguous(_, escaped) => OneEvent(Project(s, pk), SignerAmbiguous(escaped));
    case Rejected(q, sqlFails) => if q == pk { RejectProjects(s, pk, sqlFails); }
    case PruneAll => PruneProjects(s, pk);
    case ImportFile(file) => ImportProjects(s, file, pk);
    case RaiseAtt(_, source, target) => OneEvent(Project(s, pk), SetAttFloor(source, target));
    case RaiseBlock(_, slot) => OneEvent(Project(s, pk), SetBlockFloor(slot));
  }

  lemma {:induction false} StoreRunProjects(s: StoreState, events: seq<StoreEvent>, pk: string)
    ensures Project(StoreRun(s, events), pk) == SqlRun(Project(s, pk), SeenRun(s, events, pk))
    decreases |events|
  {
    if events != [] {
      var t := StoreNext(s, events[0]);
      StepProjects(s, events[0], pk);
      StoreRunProjects(t, events[1..], pk);
      SqlRunConcat(Project(s, pk), Seen(s, events[0], pk), SeenRun(t, events[1..], pk));
    }
  }

  // ----- the theorem -----

  predicate RequestOn(z: Sides, r: Request) {
    match r
    case AttRequest(_, a) => AttOn(z, a)
    case BlockRequest(_, b) => BlockOn(z, b)
  }

  ghost predicate StoreEventOk(roots: Roots, z: Sides, e: StoreEvent) {
    match e
    case Commit(_, batch, _) =>
      forall i :: 0 <= i < |batch| ==> HonestRequest(roots, batch[i].request) && RequestOn(z, batch[i].request)
    case ImportFile(file) => FileOn(z, file)
    case RaiseAtt(_, source, target) => OnSide(z.source, source) && OnSide(z.target, target)
    case RaiseBlock(_, slot) => OnSide(z.slot, slot)
    case _ => true
  }

  lemma {:induction false} GrantsAreAdmissible(roots: Roots, z: Sides, k: Strictness, batch: seq<Member>,
                                               served: seq<Served>, pk: string)
    requires |served| == |batch|
    requires forall i :: 0 <= i < |batch| ==> HonestRequest(roots, batch[i].request) && RequestOn(z, batch[i].request)
    ensures Admissible(roots, z, GrantsTo(k, batch, served, pk))
    decreases |batch|
  {
    if batch != [] {
      var n := |batch| - 1;
      GrantsAreAdmissible(roots, z, k, batch[..n], served[..n], pk);
    }
  }

  lemma {:induction false} ImportsAreAdmissible(roots: Roots, z: Sides, file: seq<ImportEntry>, pk: string)
    requires FileOn(z, file)
    ensures Admissible(roots, z, Imports(file, pk))
    decreases |file|
  {
    if file != [] {
      var n := |file| - 1;
      assert EntryOn(z, file[n]);
      ImportsAreAdmissible(roots, z, file[..n], pk);
    }
  }

  lemma SeenIsAdmissible(roots: Roots, z: Sides, s: StoreState, e: StoreEvent, pk: string)
    requires StoreEventOk(roots, z, e)
    ensures Admissible(roots, z, Seen(s, e, pk))
  {
    match e
    case Commit(k, batch, _) => GrantsAreAdmissible(roots, z, k, batch, ServeAll(StepOf(k), s.vals, batch).1, pk);
    case ImportFile(file) => ImportsAreAdmissible(roots, z, file, pk);
    case _ =>
  }

  lemma {:induction false} SeenRunIsAdmissible(roots: Roots, z: Sides, s: StoreState, events: seq<StoreEvent>, pk: string)
    requires forall e :: e in events ==> StoreEventOk(roots, z, e)
    ensures Admissible(roots, z, SeenRun(s, events, pk))
    decreases |events|
  {
    if events != [] {
      assert events[0] in events;
      SeenIsAdmissible(roots, z, s, events[0], pk);
      SeenRunIsAdmissible(roots, z, StoreNext(s, events[0]), events[1..], pk);
    }
  }

  /** No run of the whole store, with any number of validators, batches, failed commits,
      failed deletes, prunes and imports, lets a slashable pair of any validator be signed. */
  lemma {:induction false} NoStoreRunSignsASlashablePair(roots: Roots, z: Sides, events: seq<StoreEvent>, pk: string)
    requires forall e :: e in events ==> StoreEventOk(roots, z, e)
    ensures AttsSafe(SpanOf(StoreRun(Empty, events).spans, pk).signedAtts)
    ensures BlocksSafe(SpanOf(StoreRun(Empty, events).spans, pk).signedBlocks)
  {
    StoreRunProjects(Empty, events, pk);
    SeenRunIsAdmissible(roots, z, Empty, events, pk);
    assert Project(Empty, pk) == Start;
    NoRunSignsASlashablePair(roots, z, SeenRun(Empty, events, pk));
  }
}
