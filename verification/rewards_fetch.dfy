/** The bisecting rewards fetch: payloads as they come off the wire, with ideal rows that may
    be malformed, the merge of two halves, and what a fetched epoch evaluates to. */
module RewardsFetch {
  import opened Common
  import opened Rewards

  // ----- payloads -----

  /** An ideal row on the wire: readable; with a readable balance but an unreadable reward;
      or with no readable balance (or no object at all). */
  datatype IdealEntry = Readable(row: IdealRow) | BadReward(eb: int) | NoBalance

  function BalanceOf(e: IdealEntry): Option<int> {
    match e
    case Readable(row) => Some(row.eb)
    case BadReward(eb) => Some(eb)
    case NoBalance => None
  }

  datatype Payload = Payload(total: seq<TotalRow>, ideal: seq<IdealEntry>)

  predicate AllReadable(entries: seq<IdealEntry>) {
    forall e :: e in entries ==> e.Readable?
  }

  function RowOf(e: IdealEntry): IdealRow {
    match e
    case Readable(row) => row
    case BadReward(eb) => IdealRow(eb, 0, 0, 0)
    case NoBalance => IdealRow(0, 0, 0, 0)
  }

  function RowsOf(entries: seq<IdealEntry>): seq<IdealRow> {
    if entries == [] then [] else RowsOf(entries[..|entries| - 1]) + [RowOf(entries[|entries| - 1])]
  }

  datatype UsageError = MalformedIdealRow

  /** The evaluation reads every ideal row and gives up on the first it cannot read. */
  function EvaluatePayload(epoch: int, p: Payload, refs: seq<Ref>, ebs: map<int, int>)
    : Result<map<int, EpochOutcome>, UsageError>
  {
    if AllReadable(p.ideal) then Ok(Evaluate(epoch, Response(p.total, RowsOf(p.ideal)), refs, ebs))
    else Err(MalformedIdealRow)
  }

  method ReadIdealRows(entries: seq<IdealEntry>) returns (r: Result<seq<IdealRow>, UsageError>)
    ensures r == if AllReadable(entries) then Ok(RowsOf(entries)) else Err(MalformedIdealRow)
  {
    var rows: seq<IdealRow> := [];
    for i := 0 to |entries|
      invariant AllReadable(entries[..i]) && rows == RowsOf(entries[..i])
    {
      assert entries[i] in entries && entries[..i + 1][..i] == entries[..i];
      if !entries[i].Readable? { return Err(MalformedIdealRow); }
      rows := rows + [entries[i].row];
    }
    assert entries[..|entries|] == entries;
    r := Ok(rows);
  }

  method EvaluateFetched(epoch: int, p: Payload, refs: seq<Ref>, ebs: map<int, int>)
    returns (r: Result<map<int, EpochOutcome>, UsageError>)
    ensures r == EvaluatePayload(epoch, p, refs, ebs)
  {
    var rows := ReadIdealRows(p.ideal);
    if rows.Err? { return Err(rows.error); }
    var out := EvaluateEpoch(epoch, Response(p.total, rows.value), refs, ebs);
    r := Ok(out);
  }

  // ----- merging -----

  /** A dictionary of rows by effective balance, in insertion order. */
  function Upsert(dict: seq<IdealEntry>, e: IdealEntry): seq<IdealEntry> {
    if dict == [] then [e]
    else if BalanceOf(dict[0]) == BalanceOf(e) then [e] + dict[1..]
    else [dict[0]] + Upsert(dict[1..], e)
  }

  /** A row without a balance is skipped. */
  function MergeEntry(dict: seq<IdealEntry>, e: IdealEntry): seq<IdealEntry> {
    if e.NoBalance? then dict else Upsert(dict, e)
  }

  function UpsertAll(dict: seq<IdealEntry>, entries: seq<IdealEntry>): seq<IdealEntry>
    decreases |entries|
  {
    if entries == [] then dict else UpsertAll(MergeEntry(dict, entries[0]), entries[1..])
  }

  function Totals(parts: seq<Payload>): seq<TotalRow> {
    if parts == [] then [] else Totals(parts[..|parts| - 1]) + parts[|parts| - 1].total
  }

  function Ideals(parts: seq<Payload>): seq<IdealEntry> {
    if parts == [] then [] else UpsertAll(Ideals(parts[..|parts| - 1]), parts[|parts| - 1].ideal)
  }

  method MergeRewards(parts: seq<Payload>) returns (merged: Payload)
    ensures merged == Payload(Totals(parts), Ideals(parts))
  {
    var total, ideals := [], [];
    for p := 0 to |parts|
      invariant total == Totals(parts[..p]) && ideals == Ideals(parts[..p])
    {
      assert parts[..p + 1][..p] == parts[..p];
      total := total + parts[p].total;
      var rows := parts[p].ideal;
      for i := 0 to |rows|
        invariant UpsertAll(ideals, rows[i..]) == UpsertAll(Ideals(parts[..p]), rows)
      {
        assert rows[i..][1..] == rows[i + 1..];
        if rows[i].NoBalance? { continue; }
        ideals := Upsert(ideals, rows[i]);
      }
    }
    assert parts[..|parts|] == parts;
    merged := Payload(total, ideals);
  }

  function Merged(a: Payload, b: Payload): Payload {
    Payload(a.total + b.total, UpsertAll(UpsertAll([], a.ideal), b.ideal))
  }

  lemma MergedIsMergeOfTwo(a: Payload, b: Payload)
    ensures Merged(a, b) == Payload(Totals([a, b]), Ideals([a, b]))
  {
    assert [a, b][..1] == [a];
    assert [a][..0] == [];
    assert Totals([a]) == [] + a.total == a.total;
    assert Ideals([a]) == UpsertAll(Ideals([a][..0]), a.ideal);
    assert Ideals([a, b]) == UpsertAll(Ideals([a, b][..1]), b.ideal);
  }

  // ----- the bisecting fetch -----

  const SPLIT_DEPTH := 2

  /** One rewards call: a response, an answer that is no object (204), a status, or a transport error. */
  datatype Fetched = Resp(payload: Payload) | NotAnObject | Status(status: nat) | TransportFailed

  /** What the call at a node of the bisection tree, for the given ids, comes back with. The
      root is node 1 and the halves of node `k` are `2k` and `2k + 1`; each node is called at
      most once, so this is any sequence of outcomes over time. */
  type Network = (nat, seq<int>) -> Fetched

  datatype Fetch = Fetch(result: Fetched, calls: nat, extra: nat)

  predicate Splits(first: Fetched, depth: nat, ids: seq<int>) {
    first == Status(500) && depth < SPLIT_DEPTH && 2 <= |ids|
  }

  function Combine(left: Fetched, right: Fetched): Fetched {
    if right.TransportFailed? then right
    else if right.Status? then right
    else if left.Status? then left
    else if left.Resp? && right.Resp? then Resp(Merged(left.payload, right.payload))
    else Status(500)
  }

  function Join(left: Fetch, right: Fetch): Fetch {
    Fetch(Combine(left.result, right.result), left.calls + right.calls, left.extra + right.extra)
  }

  /** What a split adds: the failed call itself, and two calls on the budget. */
  function Charged(halves: Fetch): Fetch {
    Fetch(halves.result, 1 + halves.calls, 2 + halves.extra)
  }

  /** The fetch of `ids` at node `k`. */
  function FetchFrom(net: Network, k: nat, ids: seq<int>, depth: nat): Fetch
    decreases SPLIT_DEPTH - depth, 1
  {
    var first := net(k, ids);
    if Splits(first, depth, ids) then
      Charged(HalvesFrom(net, 2 * k, ids[..|ids| / 2], ids[|ids| / 2..], depth + 1))
    else
      Fetch(first, 1, 0)
  }

  /** Both halves, at nodes `k` and `k + 1`, the second only if the first met no transport error. */
  function HalvesFrom(net: Network, k: nat, low: seq<int>, high: seq<int>, depth: nat): Fetch
    decreases SPLIT_DEPTH - depth, 2
  {
    var left := FetchFrom(net, k, low, depth);
    if left.result.TransportFailed? then left else Join(left, FetchFrom(net, k + 1, high, depth))
  }

  class RequestBudget {
    var extra: nat
    var flagged: bool

    constructor ()
      ensures extra == 0 && !flagged
    {
      extra, flagged := 0, false;
    }

    method AddExtra(n: nat)
      modifies this
      ensures extra == old(extra) + n && flagged
    {
      extra, flagged := extra + n, true;
    }
  }

  /** An error of either half is the whole's, the second half's first; otherwise two
      responses are merged, and anything else is the status that caused the split. */
  method CombineHalves(left: Fetched, right: Fetched) returns (r: Fetched)
    ensures r == Combine(left, right)
  {
    if right.TransportFailed? || right.Status? { return right; }
    if left.Status? { return left; }
    if !left.Resp? || !right.Resp? { return Status(500); }
    var merged := MergeRewards([left.payload, right.payload]);
    MergedIsMergeOfTwo(left.payload, right.payload);
    r := Resp(merged);
  }

  method FetchEpochRewards(net: Network, k: nat, ids: seq<int>, budget: RequestBudget, depth: nat)
    returns (r: Fetched, calls: nat)
    modifies budget
    ensures old(budget.extra) <= budget.extra
    ensures budget.flagged == (old(budget.flagged) || old(budget.extra) < budget.extra)
    ensures Fetch(r, calls, budget.extra - old(budget.extra)) == FetchFrom(net, k, ids, depth)
    decreases SPLIT_DEPTH - depth, 1
  {
    var first := net(k, ids);
    if first != Status(500) || depth >= SPLIT_DEPTH || |ids| < 2 { return first, 1; }
    budget.AddExtra(2);
    var low, high := ids[..|ids| / 2], ids[|ids| / 2..];
    assert FetchFrom(net, k, ids, depth) == Charged(HalvesFrom(net, 2 * k, low, high, depth + 1));
    var halves, halvesCalls := FetchHalves(net, 2 * k, low, high, budget, depth + 1);
    return halves, 1 + halvesCalls;
  }

  method FetchHalves(net: Network, k: nat, low: seq<int>, high: seq<int>, budget: RequestBudget, depth: nat)
    returns (r: Fetched, calls: nat)
    modifies budget
    ensures old(budget.extra) <= budget.extra
    ensures budget.flagged == (old(budget.flagged) || old(budget.extra) < budget.extra)
    ensures Fetch(r, calls, budget.extra - old(budget.extra)) == HalvesFrom(net, k, low, high, depth)
    decreases SPLIT_DEPTH - depth, 2
  {
    var left, leftCalls := FetchEpochRewards(net, k, low, budget, depth);
    if left.TransportFailed? { return left, leftCalls; }
    var right, rightCalls := FetchEpochRewards(net, k + 1, high, budget, depth);
    r := CombineHalves(left, right);
    calls := leftCalls + rightCalls;
  }

  function Most(depth: nat): nat
    decreases SPLIT_DEPTH - depth
  {
    if depth >= SPLIT_DEPTH then 0 else 2 + 2 * Most(depth + 1)
  }

  /** `spare` first calls cost no budget; all others do, and a transport error may cut some off. */
  predicate Costs(f: Fetch, spare: nat, most: nat) {
    && 1 <= f.calls <= spare + f.extra && f.extra <= most
    && (!f.result.TransportFailed? ==> f.calls == spare + f.extra)
  }

  lemma {:induction false} CallsWithinBudget(net: Network, k: nat, ids: seq<int>, depth: nat)
    ensures Costs(FetchFrom(net, k, ids, depth), 1, Most(depth))
    decreases SPLIT_DEPTH - depth, 1
  {
    if Splits(net(k, ids), depth, ids) {
      HalvesWithinBudget(net, 2 * k, ids[..|ids| / 2], ids[|ids| / 2..], depth + 1);
    }
  }

  lemma {:induction false} HalvesWithinBudget(net: Network, k: nat, low: seq<int>, high: seq<int>, depth: nat)
    ensures Costs(HalvesFrom(net, k, low, high, depth), 2, 2 * Most(depth))
    decreases SPLIT_DEPTH - depth, 2
  {
    CallsWithinBudget(net, k, low, depth);
    CallsWithinBudget(net, k + 1, high, depth);
  }

  /** An epoch costs at most seven reward calls, one more than the budget's extra at most. */
  lemma {:induction false} AtMostSevenCalls(net: Network, ids: seq<int>)
    ensures var f := FetchFrom(net, 1, ids, 0);
            f.calls <= 1 + f.extra && f.extra <= 6 && f.calls <= 7
  {
    CallsWithinBudget(net, 1, ids, 0);
    assert Most(2) == 0 && Most(1) == 2;
  }

  ghost predicate AlwaysFails(net: Network) {
    forall k, ids :: net(k, ids) == Status(500)
  }

  lemma {:induction false} BothFail(net: Network, k: nat, low: seq<int>, high: seq<int>, depth: nat, calls: nat, extra: nat)
    requires FetchFrom(net, k, low, depth) == Fetch(Status(500), calls, extra)
    requires FetchFrom(net, k + 1, high, depth) == Fetch(Status(500), calls, extra)
    ensures HalvesFrom(net, k, low, high, depth) == Fetch(Status(500), 2 * calls, 2 * extra)
  {
  }

  lemma {:induction false} Splitting(net: Network, k: nat, ids: seq<int>, depth: nat)
    requires Splits(net(k, ids), depth, ids)
    ensures FetchFrom(net, k, ids, depth) == Charged(HalvesFrom(net, 2 * k, ids[..|ids| / 2], ids[|ids| / 2..], depth + 1))
  {
  }

  lemma {:induction false} LeavesCost(net: Network, k: nat, low: seq<int>, high: seq<int>, depth: nat)
    requires AlwaysFails(net) && depth == 2
    ensures HalvesFrom(net, k, low, high, depth) == Fetch(Status(500), 2, 0)
  {
    assert net(k, low) == net(k + 1, high) == Status(500);
    BothFail(net, k, low, high, depth, 1, 0);
  }

  lemma {:induction false} PairCosts(net: Network, k: nat, ids: seq<int>, depth: nat)
    requires 2 <= |ids| && depth == 1 && AlwaysFails(net)
    ensures FetchFrom(net, k, ids, depth) == Fetch(Status(500), 3, 2)
  {
    assert net(k, ids) == Status(500);
    Splitting(net, k, ids, depth);
    LeavesCost(net, 2 * k, ids[..|ids| / 2], ids[|ids| / 2..], depth + 1);
  }

  lemma {:induction false} PairsCost(net: Network, k: nat, low: seq<int>, high: seq<int>, depth: nat)
    requires AlwaysFails(net) && depth == 1 && 2 <= |low| && 2 <= |high|
    ensures HalvesFrom(net, k, low, high, depth) == Fetch(Status(500), 6, 4)
  {
    PairCosts(net, k, low, depth);
    PairCosts(net, k + 1, high, depth);
    BothFail(net, k, low, high, depth, 3, 2);
  }

  /** The bound is met: four or more ids whose every call fails with a 500 cost seven calls,
      six of them extra, and fail with that status. */
  lemma {:induction false} SevenCallsAreMade(net: Network, k: nat, ids: seq<int>, depth: nat)
    requires 4 <= |ids| && depth == 0 && AlwaysFails(net)
    ensures FetchFrom(net, k, ids, depth) == Fetch(Status(500), 7, 6)
  {
    assert net(k, ids) == Status(500);
    Splitting(net, k, ids, depth);
    PairsCost(net, 2 * k, ids[..|ids| / 2], ids[|ids| / 2..], depth + 1);
  }

  /** A property of fetch results that splitting keeps. */
  ghost predicate SplitKeeps(good: (seq<int>, Fetched) -> bool) {
    && (forall ids :: good(ids, TransportFailed))
    && (forall low, high, left, right :: good(low, left) && good(high, right) ==> good(low + high, Combine(left, right)))
  }

  /** Induction over the bisecting: what every single call has, the fetch has. */
  lemma {:induction false} FetchKeeps(good: (seq<int>, Fetched) -> bool, net: Network, k: nat, ids: seq<int>, depth: nat)
    requires SplitKeeps(good) && forall j, some :: good(some, net(j, some))
    ensures good(ids, FetchFrom(net, k, ids, depth).result)
    decreases SPLIT_DEPTH - depth, 1
  {
    if Splits(net(k, ids), depth, ids) {
      assert ids == ids[..|ids| / 2] + ids[|ids| / 2..];
      HalvesKeep(good, net, 2 * k, ids[..|ids| / 2], ids[|ids| / 2..], depth + 1);
    }
  }

  lemma {:induction false} HalvesKeep(good: (seq<int>, Fetched) -> bool, net: Network, k: nat,
                                      low: seq<int>, high: seq<int>, depth: nat)
    requires SplitKeeps(good) && forall j, some :: good(some, net(j, some))
    ensures good(low + high, HalvesFrom(net, k, low, high, depth).result)
    decreases SPLIT_DEPTH - depth, 2
  {
    FetchKeeps(good, net, k, low, depth);
    FetchKeeps(good, net, k + 1, high, depth);
  }

  // ----- a server, malformed rows included -----

  /** `ideal(eb)` is the row the server sends for a balance, readable or not, and `junk(id)`
      says whether naming `id` makes it send a row without a balance. */
  datatype WireServer = WireServer(
    total: int -> Option<TotalRow>, ideal: int -> IdealEntry, ebs: int -> set<int>, junk: int -> bool)

  /** The server's readable side. */
  function Readings(w: WireServer): Server {
    Server(w.total, (eb: int) => RowOf(w.ideal(eb)), w.ebs)
  }

  ghost predicate Keyed(w: WireServer) {
    forall eb :: BalanceOf(w.ideal(eb)) == Some(eb)
  }

  predicate SendsJunk(w: WireServer, ids: seq<int>) {
    exists k :: 0 <= k < |ids| && w.junk(ids[k])
  }

  predicate Listed(w: WireServer, balances: set<int>, e: IdealEntry) {
    BalanceOf(e).Some? && BalanceOf(e).value in balances && w.ideal(BalanceOf(e).value) == e
  }

  /** The rows with a balance are exactly the server's. */
  ghost predicate Lists(w: WireServer, balances: set<int>, entries: seq<IdealEntry>) {
    forall e: IdealEntry :: !e.NoBalance? ==> (e in entries <==> Listed(w, balances, e))
  }

  /** An answer up to rows without a balance. */
  ghost predicate Covers(w: WireServer, ids: seq<int>, p: Payload) {
    && TotalsAnswer(Readings(w), ids, p.total)
    && Lists(w, Balances(Readings(w), ids), p.ideal)
  }

  /** A direct answer to `ids`, in any order and with any repetition. */
  ghost predicate Replies(w: WireServer, ids: seq<int>, p: Payload) {
    Covers(w, ids, p) && (NoBalance in p.ideal <==> SendsJunk(w, ids))
  }

  // ----- merging two halves covers the whole -----

  predicate FromTable(w: WireServer, entries: seq<IdealEntry>) {
    forall k :: 0 <= k < |entries| && !entries[k].NoBalance? ==> w.ideal(BalanceOf(entries[k]).value) == entries[k]
  }

  lemma {:induction false} UpsertMembers(w: WireServer, dict: seq<IdealEntry>, e: IdealEntry, x: IdealEntry)
    requires FromTable(w, dict) && NoBalance !in dict && !e.NoBalance? && w.ideal(BalanceOf(e).value) == e
    ensures FromTable(w, Upsert(dict, e)) && NoBalance !in Upsert(dict, e)
    ensures x in Upsert(dict, e) <==> x in dict || x == e
    decreases |dict|
  {
    if dict != [] {
      assert dict == [dict[0]] + dict[1..];
      assert dict[0] in dict;
      if BalanceOf(dict[0]) == BalanceOf(e) {
        assert dict[0] == e;
      } else {
        UpsertMembers(w, dict[1..], e, x);
      }
    }
  }

  lemma {:induction false} UpsertAllMembers(w: WireServer, dict: seq<IdealEntry>, entries: seq<IdealEntry>, x: IdealEntry)
    requires FromTable(w, dict) && NoBalance !in dict && FromTable(w, entries)
    ensures FromTable(w, UpsertAll(dict, entries)) && NoBalance !in UpsertAll(dict, entries)
    ensures !x.NoBalance? ==> (x in UpsertAll(dict, entries) <==> x in dict || x in entries)
    decreases |entries|
  {
    if entries != [] {
      assert entries == [entries[0]] + entries[1..];
      if !entries[0].NoBalance? { UpsertMembers(w, dict, entries[0], x); }
      UpsertAllMembers(w, MergeEntry(dict, entries[0]), entries[1..], x);
    }
  }

  lemma ListedAreFromTable(w: WireServer, balances: set<int>, entries: seq<IdealEntry>)
    requires Lists(w, balances, entries)
    ensures FromTable(w, entries)
  {
    forall k | 0 <= k < |entries| && !entries[k].NoBalance?
      ensures w.ideal(BalanceOf(entries[k]).value) == entries[k]
    {
      assert entries[k] in entries;
    }
  }

  lemma {:induction false} MergedLists(w: WireServer, x: set<int>, y: set<int>, a: seq<IdealEntry>, b: seq<IdealEntry>)
    requires Lists(w, x, a) && Lists(w, y, b)
    ensures Lists(w, x + y, UpsertAll(UpsertAll([], a), b))
    ensures NoBalance !in UpsertAll(UpsertAll([], a), b)
  {
    ListedAreFromTable(w, x, a);
    ListedAreFromTable(w, y, b);
    var merged := UpsertAll(UpsertAll([], a), b);
    UpsertAllMembers(w, [], a, NoBalance);
    UpsertAllMembers(w, UpsertAll([], a), b, NoBalance);
    forall e: IdealEntry | !e.NoBalance?
      ensures e in merged <==> Listed(w, x + y, e)
    {
      UpsertAllMembers(w, [], a, e);
      UpsertAllMembers(w, UpsertAll([], a), b, e);
    }
  }

  /** Merging answers to two id lists covers their concatenation, and drops every row that
      has no balance. */
  lemma MergeCovers(w: WireServer, x: seq<int>, y: seq<int>, a: Payload, b: Payload)
    requires Covers(w, x, a) && Covers(w, y, b)
    ensures Covers(w, x + y, Merged(a, b)) && NoBalance !in Merged(a, b).ideal
  {
    BalancesOfConcat(Readings(w), x, y);
    MergedLists(w, Balances(Readings(w), x), Balances(Readings(w), y), a.ideal, b.ideal);
  }

  // ----- what a fetch returns -----

  /** Whenever the network answers a call, it answers it as the server would. */
  ghost predicate Faithful(w: WireServer, net: Network) {
    forall k, ids :: net(k, ids).Resp? ==> Replies(w, ids, net(k, ids).payload)
  }

  ghost predicate CoversIfAny(w: WireServer, ids: seq<int>, f: Fetched) {
    f.Resp? ==> Covers(w, ids, f.payload)
  }

  lemma CombineCovers(w: WireServer, low: seq<int>, high: seq<int>, left: Fetched, right: Fetched)
    requires CoversIfAny(w, low, left) && CoversIfAny(w, high, right)
    ensures CoversIfAny(w, low + high, Combine(left, right))
  {
    if left.Resp? && right.Resp? { MergeCovers(w, low, high, left.payload, right.payload); }
  }

  /** However often it was split, a successful fetch covers all of the ids: a half that
      failed never turns into rows that are merely missing. */
  lemma {:induction false} FetchCoversAllIds(w: WireServer, net: Network, k: nat, ids: seq<int>, depth: nat)
    requires Faithful(w, net)
    ensures CoversIfAny(w, ids, FetchFrom(net, k, ids, depth).result)
  {
    var good := (some: seq<int>, f: Fetched) => CoversIfAny(w, some, f);
    forall low, high, left, right | good(low, left) && good(high, right)
      ensures good(low + high, Combine(left, right))
    {
      CombineCovers(w, low, high, left, right);
    }
    FetchKeeps(good, net, k, ids, depth);
  }

  predicate NoJunk(f: Fetched) {
    f.Resp? ==> NoBalance !in f.payload.ideal
  }

  lemma {:induction false} UpsertAllHasNoJunk(dict: seq<IdealEntry>, entries: seq<IdealEntry>)
    requires NoBalance !in dict
    ensures NoBalance !in UpsertAll(dict, entries)
    decreases |entries|
  {
    if entries != [] {
      if !entries[0].NoBalance? { UpsertHasNoJunk(dict, entries[0]); }
      UpsertAllHasNoJunk(MergeEntry(dict, entries[0]), entries[1..]);
    }
  }

  lemma {:induction false} UpsertHasNoJunk(dict: seq<IdealEntry>, e: IdealEntry)
    requires NoBalance !in dict && !e.NoBalance?
    ensures NoBalance !in Upsert(dict, e)
    decreases |dict|
  {
    if dict != [] {
      assert dict[0] in dict;
      UpsertHasNoJunk(dict[1..], e);
    }
  }

  lemma CombinedHasNoJunk(left: Fetched, right: Fetched)
    ensures NoJunk(Combine(left, right))
  {
    if left.Resp? && right.Resp? {
      UpsertAllHasNoJunk([], left.payload.ideal);
      UpsertAllHasNoJunk(UpsertAll([], left.payload.ideal), right.payload.ideal);
    }
  }

  /** A fetch is the server's own answer, or it was split and holds no row without a balance. */
  lemma {:induction false} SplitDropsJunk(net: Network, ids: seq<int>)
    ensures var f := FetchFrom(net, 1, ids, 0);
            if Splits(net(1, ids), 0, ids) then NoJunk(f.result) else f.result == net(1, ids)
  {
    if Splits(net(1, ids), 0, ids) {
      var low, high := ids[..|ids| / 2], ids[|ids| / 2..];
      CombinedHasNoJunk(FetchFrom(net, 2, low, 1).result, FetchFrom(net, 3, high, 1).result);
    }
  }

  // ----- what it evaluates to -----

  predicate RewardsReadable(w: WireServer, balances: set<int>) {
    forall eb :: eb in balances ==> w.ideal(eb).Readable?
  }

  lemma {:induction false} ReadableIff(w: WireServer, ids: seq<int>, p: Payload)
    requires Keyed(w) && Covers(w, ids, p)
    ensures AllReadable(p.ideal) <==> RewardsReadable(w, Balances(Readings(w), ids)) && NoBalance !in p.ideal
  {
    var balances := Balances(Readings(w), ids);
    if AllReadable(p.ideal) {
      forall eb | eb in balances
        ensures w.ideal(eb).Readable?
      {
        assert Listed(w, balances, w.ideal(eb));
      }
    }
    if RewardsReadable(w, balances) && NoBalance !in p.ideal {
      forall e | e in p.ideal
        ensures e.Readable?
      {
        assert Listed(w, balances, e);
      }
    }
  }

  lemma {:induction false} RowsOfMembers(entries: seq<IdealEntry>, r: IdealRow)
    requires AllReadable(entries)
    ensures r in RowsOf(entries) <==> Readable(r) in entries
    decreases |entries|
  {
    if entries != [] {
      var n := |entries| - 1;
      assert entries == entries[..n] + [entries[n]];
      assert entries[n] in entries;
      RowsOfMembers(entries[..n], r);
    }
  }

  /** Readable payloads are answers in the sense of the evaluation. */
  lemma ReadableAnswers(w: WireServer, ids: seq<int>, p: Payload)
    requires Keyed(w) && Covers(w, ids, p) && AllReadable(p.ideal)
    ensures Labelled(Readings(w)) && Answers(Readings(w), ids, Response(p.total, RowsOf(p.ideal)))
  {
    var s, balances := Readings(w), Balances(Readings(w), ids);
    forall eb
      ensures s.ideal(eb).eb == eb
    {
      assert BalanceOf(w.ideal(eb)) == Some(eb);
    }
    ReadableIff(w, ids, p);
    forall r
      ensures r in RowsOf(p.ideal) <==> r.eb in balances && s.ideal(r.eb) == r
    {
      RowsOfMembers(p.ideal, r);
      if Readable(r) in p.ideal { assert Listed(w, balances, Readable(r)); }
      if r.eb in balances { assert Listed(w, balances, w.ideal(r.eb)); }
    }
  }

  lemma SameWhenReadable(w: WireServer, ids: seq<int>, a: Payload, b: Payload, epoch: int,
                         refs: seq<Ref>, ebs: map<int, int>)
    requires Keyed(w) && Covers(w, ids, a) && Covers(w, ids, b) && AllReadable(a.ideal) && AllReadable(b.ideal)
    ensures EvaluatePayload(epoch, a, refs, ebs) == EvaluatePayload(epoch, b, refs, ebs)
  {
    ReadableAnswers(w, ids, a);
    ReadableAnswers(w, ids, b);
    EvaluationSeesOnlyTheServer(Readings(w), ids, epoch, Response(a.total, RowsOf(a.ideal)),
                                Response(b.total, RowsOf(b.ideal)), refs, ebs);
  }

  /** The one thing a split hides: a row without a balance, when nothing else is malformed. */
  ghost predicate SplitHides(w: WireServer, net: Network, ids: seq<int>) {
    Splits(net(1, ids), 0, ids) && SendsJunk(w, ids) && RewardsReadable(w, Balances(Readings(w), ids))
  }

  /** Bisecting preserves meaning: a fetched epoch, split or not, evaluates as any direct
      answer to all the ids would, errors included, exactly unless the first call makes it
      split and the server sends rows without a balance that the merge drops; then the direct
      answer is refused and the split one evaluates. */
  lemma {:induction false} BisectingPreservesMeaningIff(w: WireServer, net: Network, ids: seq<int>, direct: Payload, epoch: int,
                                                        refs: seq<Ref>, ebs: map<int, int>)
    requires Keyed(w) && Faithful(w, net) && Replies(w, ids, direct)
    ensures var f := FetchFrom(net, 1, ids, 0);
            f.result.Resp? ==>
              && (EvaluatePayload(epoch, f.result.payload, refs, ebs) == EvaluatePayload(epoch, direct, refs, ebs)
                  <==> !SplitHides(w, net, ids))
              && (SplitHides(w, net, ids) ==> EvaluatePayload(epoch, direct, refs, ebs).Err?
                                              && EvaluatePayload(epoch, f.result.payload, refs, ebs).Ok?)
  {
    var f := FetchFrom(net, 1, ids, 0);
    FetchCoversAllIds(w, net, 1, ids, 0);
    SplitDropsJunk(net, ids);
    if f.result.Resp? {
      ReadableIff(w, ids, f.result.payload);
      ReadableIff(w, ids, direct);
      if AllReadable(f.result.payload.ideal) && AllReadable(direct.ideal) {
        SameWhenReadable(w, ids, f.result.payload, direct, epoch, refs, ebs);
      }
    }
  }

  // ----- a server whose rows a split hides -----

  /** No totals, no balances, and a row without a balance for every id. */
  const JunkServer := WireServer((_: int) => None, (eb: int) => BadReward(eb), (_: int) => {}, (_: int) => true)

  const JunkReply := Payload([], [NoBalance])

  /** Two ids fail together with 500 and are answered one by one. */
  function JunkNetwork(): Network {
    (_: nat, ids: seq<int>) => if |ids| == 1 then Resp(JunkReply) else Status(500)
  }

  lemma {:induction false} JunkListsNothing(ids: seq<int>)
    ensures Balances(Readings(JunkServer), ids) == {}
    decreases |ids|
  {
    if ids != [] { JunkListsNothing(ids[1..]); }
  }

  lemma JunkReplies(ids: seq<int>)
    requires ids != []
    ensures Replies(JunkServer, ids, JunkReply)
  {
    JunkListsNothing(ids);
    assert JunkServer.junk(ids[0]);
    assert NoBalance in JunkReply.ideal;
  }

  /** A split whose halves both answer at once. */
  lemma {:induction false} SplitOnce(net: Network, k: nat, ids: seq<int>, depth: nat, low: Payload, high: Payload)
    requires Splits(net(k, ids), depth, ids)
    requires net(2 * k, ids[..|ids| / 2]) == Resp(low) && net(2 * k + 1, ids[|ids| / 2..]) == Resp(high)
    ensures FetchFrom(net, k, ids, depth) == Fetch(Resp(Merged(low, high)), 3, 2)
  {
    assert FetchFrom(net, 2 * k, ids[..|ids| / 2], depth + 1) == Fetch(Resp(low), 1, 0);
    assert FetchFrom(net, 2 * k + 1, ids[|ids| / 2..], depth + 1) == Fetch(Resp(high), 1, 0);
  }

  lemma MergedJunk()
    ensures Merged(JunkReply, JunkReply) == Payload([], [])
  {
    assert [NoBalance][1..] == [];
    assert UpsertAll([], [NoBalance]) == [];
  }

  lemma {:induction false} JunkFetch(ids: seq<int>)
    requires |ids| == 2
    ensures FetchFrom(JunkNetwork(), 1, ids, 0) == Fetch(Resp(Payload([], [])), 3, 2)
  {
    SplitOnce(JunkNetwork(), 1, ids, 0, JunkReply, JunkReply);
    MergedJunk();
  }

  lemma JunkNetworkIsFaithful()
    ensures Keyed(JunkServer) && Faithful(JunkServer, JunkNetwork())
  {
    forall k, ids | JunkNetwork()(k, ids).Resp?
      ensures Replies(JunkServer, ids, JunkNetwork()(k, ids).payload)
    {
      JunkReplies(ids);
    }
  }

  /** The exception occurs: a faithful server and network for which the fetch of any two ids
      splits, succeeds and evaluates, while the direct answer to the same ids is refused. */
  lemma {:induction false} SplitHidesARefusedAnswer(ids: seq<int>, epoch: int, refs: seq<Ref>, ebs: map<int, int>)
    requires |ids| == 2
    ensures Keyed(JunkServer) && Faithful(JunkServer, JunkNetwork()) && Replies(JunkServer, ids, JunkReply)
    ensures SplitHides(JunkServer, JunkNetwork(), ids)
    ensures FetchFrom(JunkNetwork(), 1, ids, 0) == Fetch(Resp(Payload([], [])), 3, 2)
    ensures EvaluatePayload(epoch, Payload([], []), refs, ebs).Ok? && EvaluatePayload(epoch, JunkReply, refs, ebs).Err?
  {
    JunkNetworkIsFaithful();
    JunkReplies(ids);
    JunkListsNothing(ids);
    JunkFetch(ids);
    assert NoBalance in JunkReply.ideal;
  }
}
