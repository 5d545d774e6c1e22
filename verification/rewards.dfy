/** Attestation rewards of one epoch: the evaluation of a response into per-validator
    outcomes, and the server such a response comes from. */
module Rewards {
  import opened Common

  // ----- data -----

  datatype IdealRow = IdealRow(eb: int, source: int, target: int, head: int)

  datatype TotalRow = TotalRow(index: int, source: int, target: int, head: int, inactivity: int)

  datatype Response = Response(total: seq<TotalRow>, ideal: seq<IdealRow>)

  datatype Ref = Ref(index: Option<int>, activation: Option<int>, exit: Option<int>)

  predicate ActiveAt(ref: Ref, epoch: int) {
    ref.activation.Some? && ref.exit.Some? && ref.activation.value <= epoch < ref.exit.value
  }

  datatype EpochOutcome = EpochOutcome(
    epoch: int, sourceCredited: bool, targetCredited: bool, headCredited: Option<bool>, missed: bool,
    flagActual: int, flagIdeal: Option<int>, inactivity: int, leak: bool, source: int, target: int, head: int)

  // ----- evaluation -----

  predicate NoReward(row: IdealRow) {
    row.source == 0 && row.target == 0 && row.head == 0
  }

  /** The first row of the largest effective balance. */
  function LargestRow(rows: seq<IdealRow>): IdealRow
    requires rows != []
  {
    var last := rows[|rows| - 1];
    if |rows| == 1 then last
    else
      var m := LargestRow(rows[..|rows| - 1]);
      if m.eb < last.eb then last else m
  }

  predicate Leak(rows: seq<IdealRow>) {
    rows != [] && NoReward(LargestRow(rows))
  }

  function IdealIndex(rows: seq<IdealRow>): map<int, IdealRow> {
    if rows == [] then map[]
    else var last := rows[|rows| - 1]; IdealIndex(rows[..|rows| - 1])[last.eb := last]
  }

  function TotalIndex(rows: seq<TotalRow>): map<int, TotalRow> {
    if rows == [] then map[]
    else var last := rows[|rows| - 1]; TotalIndex(rows[..|rows| - 1])[last.index := last]
  }

  function OutcomeOf(epoch: int, row: TotalRow, leak: bool, ideal: Option<IdealRow>): EpochOutcome {
    EpochOutcome(
      epoch, row.source >= 0, row.target >= 0, if leak then None else Some(row.head > 0),
      row.source < 0 && row.target < 0, row.source + row.target + row.head,
      if leak || ideal.None? then None else Some(ideal.value.source + ideal.value.target + ideal.value.head),
      row.inactivity, leak, row.source, row.target, row.head)
  }

  /** A validator paid exactly the ideal reward of its balance, outside a leak, is credited
      with all three flags and reaches its ideal; and a miss is the absence of both the
      source and the target credit, in or outside a leak. */
  lemma OutcomeMeans(epoch: int, row: TotalRow, leak: bool, ideal: IdealRow)
    requires row.source == ideal.source && row.target == ideal.target && row.head == ideal.head
    requires 0 < ideal.source && 0 < ideal.target && 0 < ideal.head
    ensures var o := OutcomeOf(epoch, row, false, Some(ideal));
            && o.sourceCredited && o.targetCredited && o.headCredited == Some(true)
            && !o.missed && o.flagIdeal == Some(o.flagActual)
            && o.epoch == epoch && o.inactivity == row.inactivity && !o.leak
            && IdealRow(ideal.eb, o.source, o.target, o.head) == ideal
    ensures var o := OutcomeOf(epoch, row.(source := -row.source), leak, Some(ideal));
            !o.sourceCredited && o.targetCredited && !o.missed && o.flagActual < ideal.source + ideal.target + ideal.head
    ensures OutcomeOf(epoch, row.(source := -row.source, target := -row.target), leak, Some(ideal)).missed
  {
  }

  function IdealFor(ideals: map<int, IdealRow>, ebs: map<int, int>, index: int): Option<IdealRow> {
    if index in ebs && ebs[index] in ideals then Some(ideals[ebs[index]]) else None
  }

  function Evaluate(epoch: int, resp: Response, refs: seq<Ref>, ebs: map<int, int>): map<int, EpochOutcome> {
    if refs == [] then map[]
    else
      var ref := refs[|refs| - 1];
      var rest := Evaluate(epoch, resp, refs[..|refs| - 1], ebs);
      var rows := TotalIndex(resp.total);
      if !ActiveAt(ref, epoch) || ref.index.None? || ref.index.value !in rows then rest
      else
        var i := ref.index.value;
        rest[i := OutcomeOf(epoch, rows[i], Leak(resp.ideal), IdealFor(IdealIndex(resp.ideal), ebs, i))]
  }

  method DetectLeak(rows: seq<IdealRow>) returns (leak: bool)
    ensures leak == Leak(rows)
  {
    if rows == [] { return false; }
    var best := rows[0];
    for i := 1 to |rows|
      invariant best == LargestRow(rows[..i])
    {
      assert rows[..i + 1][..i] == rows[..i];
      if best.eb < rows[i].eb { best := rows[i]; }
    }
    assert rows[..|rows|] == rows;
    leak := best.source == best.target && best.target == best.head && best.head == 0;
  }

  method BuildIdealIndex(rows: seq<IdealRow>) returns (index: map<int, IdealRow>)
    ensures index == IdealIndex(rows)
  {
    index := map[];
    for i := 0 to |rows|
      invariant index == IdealIndex(rows[..i])
    {
      assert rows[..i + 1][..i] == rows[..i];
      index := index[rows[i].eb := rows[i]];
    }
    assert rows[..|rows|] == rows;
  }

  method BuildTotalIndex(rows: seq<TotalRow>) returns (index: map<int, TotalRow>)
    ensures index == TotalIndex(rows)
  {
    index := map[];
    for i := 0 to |rows|
      invariant index == TotalIndex(rows[..i])
    {
      assert rows[..i + 1][..i] == rows[..i];
      index := index[rows[i].index := rows[i]];
    }
    assert rows[..|rows|] == rows;
  }

  method EvaluateEpoch(epoch: int, resp: Response, refs: seq<Ref>, ebs: map<int, int>)
    returns (out: map<int, EpochOutcome>)
    ensures out == Evaluate(epoch, resp, refs, ebs)
  {
    var leak := DetectLeak(resp.ideal);
    var ideals := BuildIdealIndex(resp.ideal);
    var byIndex := BuildTotalIndex(resp.total);
    out := map[];
    for k := 0 to |refs|
      invariant out == Evaluate(epoch, resp, refs[..k], ebs)
    {
      assert refs[..k + 1][..k] == refs[..k];
      var ref := refs[k];
      if !ActiveAt(ref, epoch) { continue; }
      if ref.index.None? || ref.index.value !in byIndex { continue; }
      var i := ref.index.value;
      out := out[i := OutcomeOf(epoch, byIndex[i], leak, IdealFor(ideals, ebs, i))];
    }
    assert refs[..|refs|] == refs;
  }

  // ----- a server whose rows depend only on id and effective balance -----

  /** `total(id)` is the validator's row if it has one; `ideal(eb)` the ideal row of a balance;
      `ebs(id)` the balances a request naming `id` makes the server list, which covers both a
      server listing its whole table and one listing the requested validators' balances. */
  datatype Server = Server(total: int -> Option<TotalRow>, ideal: int -> IdealRow, ebs: int -> set<int>)

  function Balances(server: Server, ids: seq<int>): set<int> {
    if ids == [] then {} else server.ebs(ids[0]) + Balances(server, ids[1..])
  }

  ghost predicate TotalsAnswer(server: Server, ids: seq<int>, rows: seq<TotalRow>) {
    forall r :: r in rows <==> r.index in ids && server.total(r.index) == Some(r)
  }

  ghost predicate IdealsAnswer(server: Server, balances: set<int>, rows: seq<IdealRow>) {
    forall r :: r in rows <==> r.eb in balances && server.ideal(r.eb) == r
  }

  /** A server whose ideal row for a balance is labelled with that balance. */
  ghost predicate Labelled(server: Server) {
    forall eb :: server.ideal(eb).eb == eb
  }

  /** The response to `ids`, in any order and with any repetition. */
  ghost predicate Answers(server: Server, ids: seq<int>, resp: Response) {
    TotalsAnswer(server, ids, resp.total) && IdealsAnswer(server, Balances(server, ids), resp.ideal)
  }

  // ----- evaluation sees only the server -----

  lemma {:induction false} LargestRowIsLargest(rows: seq<IdealRow>)
    requires rows != []
    ensures LargestRow(rows) in rows
    ensures forall r :: r in rows ==> r.eb <= LargestRow(rows).eb
    decreases |rows|
  {
    if |rows| != 1 {
      var before := rows[..|rows| - 1];
      LargestRowIsLargest(before);
      assert rows == before + [rows[|rows| - 1]];
    }
  }

  /** A leak, from the server alone: the largest listed balance earns nothing. */
  ghost predicate ServerLeak(server: Server, balances: set<int>) {
    exists eb :: eb in balances && NoReward(server.ideal(eb)) && forall other :: other in balances ==> other <= eb
  }

  lemma LeakFromServer(server: Server, balances: set<int>, rows: seq<IdealRow>)
    requires Labelled(server) && IdealsAnswer(server, balances, rows)
    ensures Leak(rows) <==> ServerLeak(server, balances)
  {
    if ServerLeak(server, balances) {
      var eb :| eb in balances && NoReward(server.ideal(eb)) && forall other :: other in balances ==> other <= eb;
      assert server.ideal(eb) in rows;
      LargestRowIsLargest(rows);
    }
    if rows != [] {
      LargestRowIsLargest(rows);
      forall other | other in balances
        ensures other <= LargestRow(rows).eb
      {
        assert server.ideal(other) in rows;
      }
    }
  }

  lemma {:induction false} TotalIndexMembers(rows: seq<TotalRow>, i: int)
    ensures i in TotalIndex(rows) ==> TotalIndex(rows)[i] in rows && TotalIndex(rows)[i].index == i
    ensures i !in TotalIndex(rows) ==> forall r :: r in rows ==> r.index != i
    decreases |rows|
  {
    if rows != [] {
      var before := rows[..|rows| - 1];
      TotalIndexMembers(before, i);
      assert rows == before + [rows[|rows| - 1]];
    }
  }

  lemma {:induction false} IdealIndexMembers(rows: seq<IdealRow>, eb: int)
    ensures eb in IdealIndex(rows) ==> IdealIndex(rows)[eb] in rows && IdealIndex(rows)[eb].eb == eb
    ensures eb !in IdealIndex(rows) ==> forall r :: r in rows ==> r.eb != eb
    decreases |rows|
  {
    if rows != [] {
      var before := rows[..|rows| - 1];
      IdealIndexMembers(before, eb);
      assert rows == before + [rows[|rows| - 1]];
    }
  }

  /** The row a response holds for `i` is the server's, and it holds one exactly when asked. */
  lemma {:induction false} TotalIndexFromServer(server: Server, ids: seq<int>, rows: seq<TotalRow>, i: int)
    requires TotalsAnswer(server, ids, rows)
    ensures i in TotalIndex(rows) <==> i in ids && server.total(i).Some? && server.total(i).value.index == i
    ensures i in TotalIndex(rows) ==> server.total(i) == Some(TotalIndex(rows)[i])
  {
    TotalIndexMembers(rows, i);
    if i in ids && server.total(i).Some? && server.total(i).value.index == i {
      assert server.total(i).value in rows;
    }
  }

  lemma {:induction false} IdealIndexFromServer(server: Server, balances: set<int>, rows: seq<IdealRow>, eb: int)
    requires Labelled(server) && IdealsAnswer(server, balances, rows)
    ensures eb in IdealIndex(rows) <==> eb in balances
    ensures eb in IdealIndex(rows) ==> IdealIndex(rows)[eb] == server.ideal(eb)
  {
    IdealIndexMembers(rows, eb);
    if eb in balances {
      assert server.ideal(eb) in rows;
    }
  }

  function ServerIdeal(server: Server, balances: set<int>, ebs: map<int, int>, i: int): Option<IdealRow> {
    if i in ebs && ebs[i] in balances then Some(server.ideal(ebs[i])) else None
  }

  predicate Evaluated(server: Server, ids: seq<int>, refs: seq<Ref>, epoch: int, i: int) {
    && i in ids && server.total(i).Some? && server.total(i).value.index == i
    && exists k :: 0 <= k < |refs| && refs[k].index == Some(i) && ActiveAt(refs[k], epoch)
  }

  ghost function ServerOutcome(server: Server, ids: seq<int>, ebs: map<int, int>, epoch: int, i: int): EpochOutcome
    requires server.total(i).Some?
  {
    OutcomeOf(epoch, server.total(i).value, ServerLeak(server, Balances(server, ids)),
              ServerIdeal(server, Balances(server, ids), ebs, i))
  }

  predicate RefSelects(ref: Ref, epoch: int, rows: map<int, TotalRow>, i: int) {
    ActiveAt(ref, epoch) && ref.index == Some(i) && i in rows
  }

  lemma {:induction false} EvaluateAt(epoch: int, resp: Response, refs: seq<Ref>, ebs: map<int, int>, i: int)
    ensures i in Evaluate(epoch, resp, refs, ebs) <==>
            exists k :: 0 <= k < |refs| && RefSelects(refs[k], epoch, TotalIndex(resp.total), i)
    ensures i in Evaluate(epoch, resp, refs, ebs) ==>
            && i in TotalIndex(resp.total)
            && Evaluate(epoch, resp, refs, ebs)[i]
               == OutcomeOf(epoch, TotalIndex(resp.total)[i], Leak(resp.ideal), IdealFor(IdealIndex(resp.ideal), ebs, i))
    decreases |refs|
  {
    if refs != [] {
      var n := |refs| - 1;
      EvaluateAt(epoch, resp, refs[..n], ebs, i);
      var rows := TotalIndex(resp.total);
      if RefSelects(refs[n], epoch, rows, i) {
      } else if i in Evaluate(epoch, resp, refs[..n], ebs) {
        var k :| 0 <= k < n && RefSelects(refs[..n][k], epoch, rows, i);
        assert RefSelects(refs[k], epoch, rows, i);
      } else {
        forall k | 0 <= k < |refs|
          ensures !RefSelects(refs[k], epoch, rows, i)
        {
          if k < n { assert !RefSelects(refs[..n][k], epoch, rows, i); }
        }
      }
    }
  }

  // ----- what an outcome says -----

  /** Row `k` is the one that counts for `i`: the last with that index. */
  ghost predicate TotalRowOf(rows: seq<TotalRow>, k: int, i: int) {
    0 <= k < |rows| && rows[k].index == i && forall j :: k < j < |rows| ==> rows[j].index != i
  }

  /** Row `k` is the one that counts for the balance `eb`: the last with that balance. */
  ghost predicate IdealRowOf(rows: seq<IdealRow>, k: int, eb: int) {
    0 <= k < |rows| && rows[k].eb == eb && forall j :: k < j < |rows| ==> rows[j].eb != eb
  }

  /** Row `k` is the first of the largest balance. */
  ghost predicate TopRow(rows: seq<IdealRow>, k: int) {
    && 0 <= k < |rows|
    && (forall j :: 0 <= j < |rows| ==> rows[j].eb <= rows[k].eb)
    && (forall j :: 0 <= j < k ==> rows[j].eb < rows[k].eb)
  }

  lemma {:induction false} TotalIndexIsLast(rows: seq<TotalRow>, i: int) returns (k: nat)
    requires i in TotalIndex(rows)
    ensures TotalRowOf(rows, k, i) && TotalIndex(rows)[i] == rows[k]
    decreases |rows|
  {
    k := |rows| - 1;
    if rows[k].index != i { k := TotalIndexIsLast(rows[..k], i); }
  }

  lemma {:induction false} IdealIndexIsLast(rows: seq<IdealRow>, eb: int) returns (k: nat)
    requires eb in IdealIndex(rows)
    ensures IdealRowOf(rows, k, eb) && IdealIndex(rows)[eb] == rows[k]
    decreases |rows|
  {
    k := |rows| - 1;
    if rows[k].eb != eb { k := IdealIndexIsLast(rows[..k], eb); }
  }

  lemma {:induction false} LargestRowIsTop(rows: seq<IdealRow>) returns (k: nat)
    requires rows != []
    ensures TopRow(rows, k) && LargestRow(rows) == rows[k]
    decreases |rows|
  {
    var n := |rows| - 1;
    k := n;
    if n != 0 {
      var m := LargestRowIsTop(rows[..n]);
      assert rows[..n][m] == rows[m];
      assert forall j :: 0 <= j < n ==> rows[..n][j] == rows[j];
      if rows[n].eb <= rows[m].eb { k := m; }
    }
  }

  /** A leak is read off the first row of the largest balance: it earns nothing. */
  lemma LeakIff(rows: seq<IdealRow>)
    ensures Leak(rows) <==> exists k :: TopRow(rows, k) && rows[k].source == 0 && rows[k].target == 0 && rows[k].head == 0
  {
    if rows != [] {
      var k := LargestRowIsTop(rows);
      forall j | TopRow(rows, j)
        ensures j == k
      {
        assert rows[j].eb <= rows[k].eb <= rows[j].eb;
      }
    }
  }

  /** The ideal reward of `i`: the three parts of the row of its balance, if there is one. */
  ghost predicate IdealSum(rows: seq<IdealRow>, ebs: map<int, int>, i: int, sum: Option<int>) {
    if sum.None? then i in ebs ==> forall k :: 0 <= k < |rows| ==> rows[k].eb != ebs[i]
    else i in ebs && exists k :: IdealRowOf(rows, k, ebs[i]) && sum.value == rows[k].source + rows[k].target + rows[k].head
  }

  /** Every field of an outcome, from the validator's row, the leak and its balance's row. */
  ghost predicate OutcomeReads(epoch: int, row: TotalRow, resp: Response, ebs: map<int, int>, i: int, o: EpochOutcome) {
    && o.epoch == epoch
    && (o.sourceCredited <==> 0 <= row.source)
    && (o.targetCredited <==> 0 <= row.target)
    && (o.headCredited == None <==> o.leak)
    && (!o.leak ==> (o.headCredited == Some(true) <==> 0 < row.head))
    && (o.missed <==> !o.sourceCredited && !o.targetCredited)
    && o.source == row.source && o.target == row.target && o.head == row.head && o.inactivity == row.inactivity
    && o.flagActual == row.source + row.target + row.head
    && (o.leak <==> exists k :: TopRow(resp.ideal, k) && resp.ideal[k].source == 0 && resp.ideal[k].target == 0
                                && resp.ideal[k].head == 0)
    && (if o.leak then o.flagIdeal == None else IdealSum(resp.ideal, ebs, i, o.flagIdeal))
  }

  lemma {:induction false} IdealForMeans(rows: seq<IdealRow>, ebs: map<int, int>, i: int)
    ensures var ideal := IdealFor(IdealIndex(rows), ebs, i);
            IdealSum(rows, ebs, i, if ideal.None? then None else Some(ideal.value.source + ideal.value.target + ideal.value.head))
  {
    if i in ebs {
      IdealIndexMembers(rows, ebs[i]);
      if ebs[i] in IdealIndex(rows) { var k := IdealIndexIsLast(rows, ebs[i]); }
    }
  }

  lemma OutcomeOfReads(epoch: int, row: TotalRow, resp: Response, ebs: map<int, int>, i: int)
    ensures OutcomeReads(epoch, row, resp, ebs, i,
                         OutcomeOf(epoch, row, Leak(resp.ideal), IdealFor(IdealIndex(resp.ideal), ebs, i)))
  {
    LeakIff(resp.ideal);
    IdealForMeans(resp.ideal, ebs, i);
  }

  /** Who is evaluated, and what every field of the outcome says: a validator has one exactly
      when some reference makes it active in the epoch and the response holds a row for it. */
  lemma {:induction false} EvaluatedOutcome(epoch: int, resp: Response, refs: seq<Ref>, ebs: map<int, int>, i: int)
    ensures i in Evaluate(epoch, resp, refs, ebs) <==>
            && (exists k :: 0 <= k < |refs| && refs[k].index == Some(i) && refs[k].activation.Some? && refs[k].exit.Some?
                            && refs[k].activation.value <= epoch < refs[k].exit.value)
            && (exists k :: TotalRowOf(resp.total, k, i))
    ensures i in Evaluate(epoch, resp, refs, ebs) ==>
            exists k :: TotalRowOf(resp.total, k, i)
                        && OutcomeReads(epoch, resp.total[k], resp, ebs, i, Evaluate(epoch, resp, refs, ebs)[i])
  {
    EvaluateAt(epoch, resp, refs, ebs, i);
    if i in TotalIndex(resp.total) {
      var k := TotalIndexIsLast(resp.total, i);
      OutcomeOfReads(epoch, resp.total[k], resp, ebs, i);
    } else {
      TotalIndexMembers(resp.total, i);
    }
    if k :| 0 <= k < |refs| && refs[k].index == Some(i) && ActiveAt(refs[k], epoch) {
      assert i in TotalIndex(resp.total) ==> RefSelects(refs[k], epoch, TotalIndex(resp.total), i);
    }
  }

  lemma {:induction false} EvaluateAtFromServer(server: Server, ids: seq<int>, epoch: int, resp: Response, refs: seq<Ref>,
                                                ebs: map<int, int>, i: int)
    requires Labelled(server) && Answers(server, ids, resp)
    ensures i in Evaluate(epoch, resp, refs, ebs) <==> Evaluated(server, ids, refs, epoch, i)
    ensures Evaluated(server, ids, refs, epoch, i) ==>
            Evaluate(epoch, resp, refs, ebs)[i] == ServerOutcome(server, ids, ebs, epoch, i)
  {
    EvaluateAt(epoch, resp, refs, ebs, i);
    TotalIndexFromServer(server, ids, resp.total, i);
    var rows := TotalIndex(resp.total);
    if i in Evaluate(epoch, resp, refs, ebs) {
      var k :| 0 <= k < |refs| && RefSelects(refs[k], epoch, rows, i);
      assert refs[k].index == Some(i);
    }
    if Evaluated(server, ids, refs, epoch, i) {
      var k :| 0 <= k < |refs| && refs[k].index == Some(i) && ActiveAt(refs[k], epoch);
      assert RefSelects(refs[k], epoch, rows, i);
      LeakFromServer(server, Balances(server, ids), resp.ideal);
      if i in ebs {
        IdealIndexFromServer(server, Balances(server, ids), resp.ideal, ebs[i]);
      }
    }
  }

  /** Any two answers to the same ids evaluate alike. */
  lemma {:induction false} EvaluationSeesOnlyTheServer(server: Server, ids: seq<int>, epoch: int, a: Response, b: Response,
                                                       refs: seq<Ref>, ebs: map<int, int>)
    requires Labelled(server) && Answers(server, ids, a) && Answers(server, ids, b)
    ensures Evaluate(epoch, a, refs, ebs) == Evaluate(epoch, b, refs, ebs)
  {
    forall i
      ensures i in Evaluate(epoch, a, refs, ebs) <==> i in Evaluate(epoch, b, refs, ebs)
      ensures i in Evaluate(epoch, a, refs, ebs) ==> Evaluate(epoch, a, refs, ebs)[i] == Evaluate(epoch, b, refs, ebs)[i]
    {
      EvaluateAtFromServer(server, ids, epoch, a, refs, ebs, i);
      EvaluateAtFromServer(server, ids, epoch, b, refs, ebs, i);
    }
  }

  lemma {:induction false} BalancesOfConcat(server: Server, a: seq<int>, b: seq<int>)
    ensures Balances(server, a + b) == Balances(server, a) + Balances(server, b)
    decreases |a|
  {
    if a == [] {
      assert a + b == b;
    } else {
      assert (a + b)[1..] == a[1..] + b;
      BalancesOfConcat(server, a[1..], b);
    }
  }
}
