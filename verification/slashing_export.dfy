/**
 * EIP-3076 interchange export of `crates/slashing/src/db/interchange.rs`: rows at or
 * below a floor are dropped and replaced by one synthetic record, whose bounds are a
 * fixed point over the kept rows.
 *
 * What the file has to preserve is stated against an importer that applies the EIP's
 * own conditions 1 to 5, the reference of `crates/slashing/tests/support/eip3076_model.rs`.
 *
 * Export compares in Rust, so its own bounds are exact for all `u64` values; what the
 * database refuses is decided over its signed columns.
 */
module SlashingExport {
  import opened Common
  import opened SlashingRules
  import opened SlashingMachine
  import opened SlashingColumns

  // ----- the reference importer -----

  /** Conditions 3 to 5: what an importer of `file` must refuse to sign. */
  ghost predicate FileRefusesAtt(file: seq<Att>, c: Att) {
    && file != []
    && (|| (forall r :: r in file ==> c.source < r.source)
        || ((forall r :: r in file ==> c.target <= r.target) && !(c in file && c.root.Some?))
        || (exists r :: r in file && SlashableAtts(c, r)))
  }

  /** Conditions 1 and 2. */
  ghost predicate FileRefusesBlock(file: seq<Block>, c: Block) {
    && file != []
    && (|| ((forall r :: r in file ==> c.slot <= r.slot) && !(c in file && c.root.Some?))
        || (exists r :: r in file && SlashableBlocks(c, r)))
  }

  // ----- the fixed point -----

  function SourceBound(rows: seq<Att>, sourceWm: nat, t: nat): (s: nat)
    ensures sourceWm <= s
    ensures forall r :: r in rows && r.target <= t ==> r.source <= s
    ensures s == sourceWm || exists r :: r in rows && r.target <= t && r.source == s
    decreases |rows|
  {
    if rows == [] then sourceWm
    else
      var n := |rows| - 1;
      var rest := SourceBound(rows[..n], sourceWm, t);
      assert rows[n] in rows && rows == rows[..n] + [rows[n]];
      if rows[n].target <= t then Max(rest, rows[n].source) else rest
  }

  /** The largest target above `t` whose source undercuts `s`. */
  function RaisedTarget(rows: seq<Att>, s: nat, t: nat): (u: Option<nat>)
    ensures u.Some? ==> exists r :: r in rows && r.target == u.value && t < r.target && r.source < s
    ensures u.Some? ==> forall r :: r in rows && r.target > t && r.source < s ==> r.target <= u.value
    ensures u.None? ==> forall r :: r in rows && r.target > t ==> s <= r.source
    decreases |rows|
  {
    if rows == [] then None
    else
      var n := |rows| - 1;
      var rest := RaisedTarget(rows[..n], s, t);
      assert rows[n] in rows && rows == rows[..n] + [rows[n]];
      if t < rows[n].target && rows[n].source < s then Raise(rest, rows[n].target) else rest
  }

  function CountAbove(rows: seq<Att>, t: nat): nat
    decreases |rows|
  {
    if rows == [] then 0
    else CountAbove(rows[1..], t) + if t < rows[0].target then 1 else 0
  }

  lemma {:induction false} CountAboveShrinks(rows: seq<Att>, t: nat, u: nat)
    requires t <= u
    ensures CountAbove(rows, u) <= CountAbove(rows, t)
    ensures (exists r :: r in rows && t < r.target <= u) ==> CountAbove(rows, u) < CountAbove(rows, t)
    decreases |rows|
  {
    if rows != [] {
      CountAboveShrinks(rows[1..], t, u);
    }
  }

  /** The bounds `(S*, T*)` of the synthetic record, started at target `t`. */
  function Floor(rows: seq<Att>, sourceWm: nat, t: nat): (nat, nat)
    decreases CountAbove(rows, t)
  {
    var s := SourceBound(rows, sourceWm, t);
    var u := RaisedTarget(rows, s, t);
    if u.None? then (s, t)
    else
      CountAboveShrinks(rows, t, u.value);
      Floor(rows, sourceWm, u.value)
  }

  method ScanSources(rows: seq<Att>, sourceWm: nat, t: nat) returns (s: nat)
    ensures s == SourceBound(rows, sourceWm, t)
  {
    s := sourceWm;
    for i := 0 to |rows|
      invariant s == SourceBound(rows[..i], sourceWm, t)
    {
      assert rows[..i + 1][..i] == rows[..i];
      if rows[i].target <= t { s := Max(s, rows[i].source); }
    }
    assert rows[..|rows|] == rows;
  }

  method ScanTargets(rows: seq<Att>, s: nat, t: nat) returns (raised: Option<nat>)
    ensures raised == RaisedTarget(rows, s, t)
  {
    raised := None;
    for i := 0 to |rows|
      invariant raised == RaisedTarget(rows[..i], s, t)
    {
      assert rows[..i + 1][..i] == rows[..i];
      if t < rows[i].target && rows[i].source < s { raised := Raise(raised, rows[i].target); }
    }
    assert rows[..|rows|] == rows;
  }

  /** The loop of `attestation_synthetic_bounds`. */
  method SyntheticBounds(rows: seq<Att>, sourceWm: nat, targetWm: nat) returns (s: nat, t: nat)
    ensures (s, t) == Floor(rows, sourceWm, targetWm)
  {
    t := targetWm;
    s := ScanSources(rows, sourceWm, t);
    var raised := ScanTargets(rows, s, t);
    while raised.Some?
      invariant Floor(rows, sourceWm, t) == Floor(rows, sourceWm, targetWm)
      invariant s == SourceBound(rows, sourceWm, t) && raised == RaisedTarget(rows, s, t)
      decreases CountAbove(rows, t)
    {
      CountAboveShrinks(rows, t, raised.value);
      t := raised.value;
      s := ScanSources(rows, sourceWm, t);
      raised := ScanTargets(rows, s, t);
    }
  }

  /** One record `(s, t)` can stand for the floors and every row it drops, without
      undercutting the rows it keeps. */
  ghost predicate Represents(rows: seq<Att>, sourceWm: nat, targetWm: nat, s: nat, t: nat) {
    && sourceWm <= s && targetWm <= t
    && (forall r :: r in rows && r.target <= t ==> r.source <= s)
    && (forall r :: r in rows && t < r.target ==> s <= r.source)
  }

  lemma {:induction false} FloorRepresents(rows: seq<Att>, sourceWm: nat, targetWm: nat, t: nat)
    requires targetWm <= t
    ensures var (fs, ft) := Floor(rows, sourceWm, t);
            t <= ft && Represents(rows, sourceWm, targetWm, fs, ft)
    decreases CountAbove(rows, t)
  {
    var u := RaisedTarget(rows, SourceBound(rows, sourceWm, t), t);
    if u.Some? {
      CountAboveShrinks(rows, t, u.value);
      FloorRepresents(rows, sourceWm, targetWm, u.value);
    }
  }

  /** The fixed point is the least record that represents the floor: export drops no
      more rows, and claims no higher floor, than it has to. */
  lemma {:induction false} FloorIsLeast(rows: seq<Att>, sourceWm: nat, targetWm: nat, t: nat, s': nat, t': nat)
    requires Represents(rows, sourceWm, targetWm, s', t') && t <= t'
    ensures Floor(rows, sourceWm, t).0 <= s' && Floor(rows, sourceWm, t).1 <= t'
    decreases CountAbove(rows, t)
  {
    var s := SourceBound(rows, sourceWm, t);
    var u := RaisedTarget(rows, s, t);
    assert s <= s';
    if u.Some? {
      CountAboveShrinks(rows, t, u.value);
      FloorIsLeast(rows, sourceWm, targetWm, u.value, s', t');
    }
  }

  // ----- export -----

  datatype ExportError = UnrepresentableFloor(sourceBound: nat, targetBound: nat)

  function AboveTarget(rows: seq<Att>, t: nat): seq<Att> {
    FromTarget(rows, t + 1)
  }

  function ExportAtts(v: Validator): Result<seq<Att>, ExportError> {
    match (v.sourceWm, v.targetWm)
    case (None, None) => Ok(v.atts)
    case (Some(sourceWm), Some(targetWm)) =>
      var (s, t) := Floor(v.atts, sourceWm, targetWm);
      if t < s then Err(UnrepresentableFloor(s, t))
      else Ok([Att(s, t, None)] + AboveTarget(v.atts, t))
    case (Some(sourceWm), None) => Err(UnrepresentableFloor(sourceWm, 0))
    case (None, Some(targetWm)) => Err(UnrepresentableFloor(0, targetWm))
  }

  function ExportBlocks(v: Validator): seq<Block> {
    if v.blockWm.Some? then [Block(v.blockWm.value, None)] + FromSlot(v.blocks, v.blockWm.value + 1)
    else v.blocks
  }

  /** The least record that represents the floors of `v`. */
  ghost predicate LeastRecord(v: Validator, s: nat, t: nat)
    requires v.sourceWm.Some? && v.targetWm.Some?
  {
    && Represents(v.atts, v.sourceWm.value, v.targetWm.value, s, t)
    && forall s', t' :: Represents(v.atts, v.sourceWm.value, v.targetWm.value, s', t') ==> s <= s' && t <= t'
  }

  lemma FloorIsLeastRecord(v: Validator)
    requires v.sourceWm.Some? && v.targetWm.Some?
    ensures var (s, t) := Floor(v.atts, v.sourceWm.value, v.targetWm.value); LeastRecord(v, s, t)
  {
    var (s, t) := Floor(v.atts, v.sourceWm.value, v.targetWm.value);
    FloorRepresents(v.atts, v.sourceWm.value, v.targetWm.value, v.targetWm.value);
    forall s', t' | Represents(v.atts, v.sourceWm.value, v.targetWm.value, s', t')
      ensures s <= s' && t <= t'
    {
      FloorIsLeast(v.atts, v.sourceWm.value, v.targetWm.value, v.targetWm.value, s', t');
    }
  }

  /** A history exports exactly when it has no floors, or both and the least record for them
      does not vote for a target before its source; what cannot be exported is reported with
      that record, or with the one floor there is. */
  lemma ExportsIff(v: Validator)
    ensures ExportAtts(v).Ok? <==>
            || (v.sourceWm.None? && v.targetWm.None?)
            || (v.sourceWm.Some? && v.targetWm.Some? && exists s: nat, t: nat :: LeastRecord(v, s, t) && s <= t)
    ensures ExportAtts(v).Err? ==>
            var e := ExportAtts(v).error;
            match (v.sourceWm, v.targetWm)
            case (Some(sourceWm), None) => e == UnrepresentableFloor(sourceWm, 0)
            case (None, Some(targetWm)) => e == UnrepresentableFloor(0, targetWm)
            case (Some(_), Some(_)) => LeastRecord(v, e.sourceBound, e.targetBound) && e.targetBound < e.sourceBound
            case _ => false
  {
    if v.sourceWm.Some? && v.targetWm.Some? { FloorIsLeastRecord(v); }
  }

  /** The first record is the only one at its target, and everything else lies above it. */
  lemma ExportedFloor(v: Validator)
    requires v.sourceWm.Some? && v.targetWm.Some? && ExportAtts(v).Ok?
    ensures var file := ExportAtts(v).value;
            var (s, t) := Floor(v.atts, v.sourceWm.value, v.targetWm.value);
            && file[0] == Att(s, t, None)
            && Represents(v.atts, v.sourceWm.value, v.targetWm.value, s, t)
            && (forall r :: r in file <==> r == file[0] || (r in v.atts && t < r.target))
            && (forall i :: 0 < i < |file| ==> s <= file[i].source && t < file[i].target)
  {
    FloorRepresents(v.atts, v.sourceWm.value, v.targetWm.value, v.targetWm.value);
    var file := ExportAtts(v).value;
    var kept := AboveTarget(v.atts, file[0].target);
    forall i | 0 < i < |file|
      ensures file[i] in kept
    {
      assert file[i] == kept[i - 1];
    }
  }

  /** The synthetic record forms no slashable pair with any other record of its file. */
  lemma SyntheticVoteIsHarmless(v: Validator, i: nat)
    requires v.sourceWm.Some? && v.targetWm.Some? && ExportAtts(v).Ok?
    requires 0 < i < |ExportAtts(v).value|
    ensures !SlashableAtts(ExportAtts(v).value[0], ExportAtts(v).value[i])
  {
    ExportedFloor(v);
  }

  /** A vote only the gap rule refuses finds the floors themselves as fixed point. */
  lemma GapRefusalSeesBareFloor(v: Validator, c: Att, strict: bool)
    requires v.sourceWm.Some? && v.targetWm.Some?
    requires CheckAtt(v, c, strict).TargetBelowMinimum?
    ensures Floor(v.atts, v.sourceWm.value, v.targetWm.value) == (v.sourceWm.value, v.targetWm.value)
    ensures v.sourceWm.value <= c.source && v.targetWm.value < c.target
  {
  }

  lemma VoteRefusalsKept(v: Validator, file: seq<Att>, c: Att, strict: bool)
    requires ExportAtts(v) == Ok(file)
    requires RootsFaithful(v.atts, c) && !CheckAtt(v, c, strict).Accepted()
    ensures FileRefusesAtt(file, c)
            <==> !(CheckAtt(v, c, strict).TargetBelowMinimum? && v.targetWm.Some?)
  {
    if v.targetWm.None? {
      RefusedWithoutFloor(v, c, strict);
    } else if CheckAtt(v, c, strict).TargetBelowMinimum? {
      GapRefusedVoteIsAllowed(v, file, c, strict);
    } else if file[0].source <= c.source && file[0].target < c.target {
      RefusedAboveFloor(v, file, c, strict);
    } else {
      RefusedBelowFloor(v, file, c);
    }
  }

  lemma RefusedBelowFloor(v: Validator, file: seq<Att>, c: Att)
    requires v.sourceWm.Some? && v.targetWm.Some? && ExportAtts(v) == Ok(file)
    requires c.source < file[0].source || c.target <= file[0].target
    ensures FileRefusesAtt(file, c)
  {
    ExportedFloor(v);
    assert file[0] in file && file[0].root.None?;
    if c.source < file[0].source {
      assert forall r :: r in file ==> c.source < r.source;
    } else {
      assert forall r :: r in file ==> c.target <= r.target;
    }
  }

  /** Non-weakening, exactly: an importer of the exported file refuses a vote this
      database refuses, unless the database refused it by the gap rule alone while it
      had attestation floors. */
  lemma ExportKeepsVoteRefusals(z: Sides, v: Validator, file: seq<Att>, c: Att, strict: bool)
    requires AttsOn(z, v.atts) && AttOn(z, c)
    requires ExportAtts(v) == Ok(file)
    requires RootsFaithful(v.atts, c) && !SqlCheckAtt(v, c, strict).Accepted()
    ensures FileRefusesAtt(file, c)
            <==> !(SqlCheckAtt(v, c, strict).TargetBelowMinimum? && v.targetWm.Some?)
  {
    CheckAttAgrees(z, v, c, strict);
    VoteRefusalsKept(v, file, c, strict);
  }

  lemma GapRefusedVoteIsAllowed(v: Validator, file: seq<Att>, c: Att, strict: bool)
    requires v.sourceWm.Some? && v.targetWm.Some? && ExportAtts(v) == Ok(file)
    requires CheckAtt(v, c, strict).TargetBelowMinimum?
    ensures !FileRefusesAtt(file, c)
  {
    ExportedFloor(v);
    GapRefusalSeesBareFloor(v, c, strict);
    assert file[0] in file;
    forall r | r in file
      ensures !SlashableAtts(c, r)
    {
      if r != file[0] {
        assert !Surrounds(c, r) && !Surrounds(r, c);
      }
    }
  }

  lemma RefusedAboveFloor(v: Validator, file: seq<Att>, c: Att, strict: bool)
    requires v.sourceWm.Some? && v.targetWm.Some? && ExportAtts(v) == Ok(file)
    requires RootsFaithful(v.atts, c)
    requires !CheckAtt(v, c, strict).Accepted() && !CheckAtt(v, c, strict).TargetBelowMinimum?
    requires file[0].source <= c.source && file[0].target < c.target
    ensures exists r :: r in file && SlashableAtts(c, r)
  {
    ExportedFloor(v);
    var existing := AtTarget(v.atts, c.target);
    if existing.Some? && !IsResign(existing.value.root, c.root, strict) {
      assert existing.value in file && SlashableAtts(c, existing.value);
    } else if SurroundsSome(v.atts, c) {
      var r :| r in v.atts && Surrounds(c, r);
      assert r in file && SlashableAtts(c, r);
    } else {
      var r :| r in v.atts && Surrounds(r, c);
      assert r in file && SlashableAtts(c, r);
    }
  }

  lemma RefusedWithoutFloor(v: Validator, c: Att, strict: bool)
    requires v.sourceWm.None? && v.targetWm.None?
    requires RootsFaithful(v.atts, c) && !CheckAtt(v, c, strict).Accepted()
    ensures FileRefusesAtt(v.atts, c)
  {
  }

  /** The same for proposals. */
  lemma ExportKeepsBlockRefusals(z: Sides, v: Validator, c: Block, strict: bool)
    requires BlocksOn(z, v.blocks) && !SqlCheckBlk(v, c, strict).Accepted()
    ensures FileRefusesBlock(ExportBlocks(v), c)
            <==> !(SqlCheckBlk(v, c, strict).SlotBelowMinimum? && v.blockWm.Some?)
  {
    CheckBlkAgrees(z, v, c, strict);
    BlockRefusalsKept(v, c, strict);
  }

  lemma BlockRefusalsKept(v: Validator, c: Block, strict: bool)
    requires !CheckBlk(v, c, strict).Accepted()
    ensures FileRefusesBlock(ExportBlocks(v), c)
            <==> !(CheckBlk(v, c, strict).SlotBelowMinimum? && v.blockWm.Some?)
  {
    var file := ExportBlocks(v);
    var existing := AtSlot(v.blocks, c.slot);
    if v.blockWm.Some? {
      var kept := FromSlot(v.blocks, v.blockWm.value + 1);
      assert forall r :: r in file <==> r == file[0] || r in kept;
      assert file[0] in file;
      if c.slot == file[0].slot { assert SlashableBlocks(c, file[0]); }
    }
    if CheckBlk(v, c, strict).DoubleProposal? {
      assert existing.value in file && SlashableBlocks(c, existing.value);
    }
  }

  /** The documented promise taken literally is false: a vote refused only because it
      is older than every row is allowed by the exported file. */
  lemma ExportDropsTheGapRule()
    ensures var v := Validator([Att(10, 20, Some("a"))], [], Some(1), Some(5), None);
            var c := Att(10, 13, Some("b"));
            && SqlCheckAtt(v, c, true).TargetBelowMinimum?
            && ExportAtts(v) == Ok([Att(1, 5, None), Att(10, 20, Some("a"))])
            && !FileRefusesAtt([Att(1, 5, None), Att(10, 20, Some("a"))], c)
  {
    var row := Att(10, 20, Some("a"));
    var v := Validator([row], [], Some(1), Some(5), None);
    var c := Att(10, 13, Some("b"));
    assert forall r :: r in [row] ==> r == row;
    assert AtTarget([row], 13).None?;
    assert MinTarget([row]) == Some(20);
    CheckAttAgrees(Sides(false, false, false), v, c, true);
    GapRefusalSeesBareFloor(v, c, true);
    assert FromTarget([row], 6) == [row];
    assert [Att(1, 5, None)] + [row] == [Att(1, 5, None), row];
    GapRefusedVoteIsAllowed(v, [Att(1, 5, None), row], c, true);
  }

  /** And so is a proposal refused only because it is older than every row. */
  lemma ExportDropsTheBlockGapRule()
    ensures var v := Validator([], [Block(20, Some("a"))], None, None, Some(5));
            var c := Block(13, Some("b"));
            && SqlCheckBlk(v, c, true).SlotBelowMinimum?
            && ExportBlocks(v) == [Block(5, None), Block(20, Some("a"))]
            && !FileRefusesBlock(ExportBlocks(v), c)
  {
    var row := Block(20, Some("a"));
    var v := Validator([], [row], None, None, Some(5));
    var c := Block(13, Some("b"));
    assert AtSlot([row], 13).None?;
    assert SqlMinSlot([row]) == Some(20);
    assert FromSlot([row], 6) == [row];
    assert [Block(5, None)] + [row] == [Block(5, None), row];
    assert BlocksOn(Sides(false, false, false), v.blocks);
    ExportKeepsBlockRefusals(Sides(false, false, false), v, c, true);
  }

  // ----- through this program's own importer -----

  /** Whatever this database refuses is, in source or target, no newer than some record
      of the exported file. */
  lemma RefusalHasFileWitness(v: Validator, file: seq<Att>, c: Att, strict: bool) returns (r: Att)
    requires ExportAtts(v) == Ok(file) && !CheckAtt(v, c, strict).Accepted()
    ensures r in file && (c.source < r.source || c.target <= r.target)
  {
    var row := RefusalHasRowWitness(v, c, strict);
    if v.targetWm.Some? {
      ExportedFloor(v);
      if row.Some? && row.value in file { return row.value; }
      r := file[0];
    } else {
      r := row.value;
    }
  }

  lemma RefusalHasRowWitness(v: Validator, c: Att, strict: bool) returns (r: Option<Att>)
    requires !CheckAtt(v, c, strict).Accepted()
    ensures r.Some? ==> r.value in v.atts && (c.source < r.value.source || c.target <= r.value.target)
    ensures r.None? ==> || (v.sourceWm.Some? && c.source < v.sourceWm.value)
                        || (v.targetWm.Some? && c.target <= v.targetWm.value)
  {
    var verdict := CheckAtt(v, c, strict);
    match verdict
    case DoubleVote => r := AtTarget(v.atts, c.target);
    case SurroundingVote =>
      var x :| x in v.atts && Surrounds(c, x);
      r := Some(x);
    case SurroundedVote =>
      var x :| x in v.atts && Surrounds(x, c);
      r := Some(x);
    case TargetBelowMinimum =>
      var x :| x in v.atts && x.target == MinTarget(v.atts).value;
      r := Some(x);
    case _ => r := None;
  }

  lemma {:induction false} FloorOnSide(z: Sides, rows: seq<Att>, sourceWm: nat, t: nat)
    requires AttsOn(z, rows) && OnSide(z.source, sourceWm) && OnSide(z.target, t)
    ensures OnSide(z.source, Floor(rows, sourceWm, t).0) && OnSide(z.target, Floor(rows, sourceWm, t).1)
    decreases CountAbove(rows, t)
  {
    var s := SourceBound(rows, sourceWm, t);
    var u := RaisedTarget(rows, s, t);
    if u.Some? {
      CountAboveShrinks(rows, t, u.value);
      var r :| r in rows && r.target == u.value;
      assert AttOn(z, r);
      FloorOnSide(z, rows, sourceWm, u.value);
    } else if s != sourceWm {
      var r :| r in rows && r.target <= t && r.source == s;
      assert AttOn(z, r);
    }
  }

  lemma ExportOnSide(z: Sides, v: Validator, file: seq<Att>)
    requires ValidatorOn(z, v) && ExportAtts(v) == Ok(file)
    ensures AttsOn(z, file) && BlocksOn(z, ExportBlocks(v))
  {
    if v.targetWm.Some? {
      ExportedFloor(v);
      FloorOnSide(z, v.atts, v.sourceWm.value, v.targetWm.value);
    }
    if v.blockWm.Some? {
      assert forall b :: b in FromSlot(v.blocks, v.blockWm.value + 1) ==> b in v.blocks;
    }
  }

  /** Exporting here and importing there loses nothing at all: whatever this database
      refuses, the destination refuses, whatever it held before. */
  lemma ExportThenImportRefusesVotes(z: Sides, v: Validator, file: seq<Att>, blocks: seq<Block>, d: Validator,
                                     c: Att, strict: bool)
    requires ValidatorOn(z, v) && ValidatorOn(z, d) && BlocksOn(z, blocks) && AttOn(z, c)
    requires ExportAtts(v) == Ok(file) && !SqlCheckAtt(v, c, strict).Accepted()
    ensures !SqlCheckAtt(SqlImport(d, file, blocks), c, strict).Accepted()
  {
    CheckAttAgrees(z, v, c, strict);
    ExportOnSide(z, v, file);
    ImportAgrees(z, d, file, blocks);
    var r := RefusalHasFileWitness(v, file, c, strict);
    assert AttUnderFloor(ImportRecord(d, file, blocks), r);
  }

  lemma RefusalHasBlockWitness(v: Validator, c: Block, strict: bool) returns (r: Block)
    requires !CheckBlk(v, c, strict).Accepted()
    ensures r in ExportBlocks(v) && c.slot <= r.slot
  {
    var file := ExportBlocks(v);
    if v.blockWm.Some? && c.slot <= v.blockWm.value {
      r := file[0];
    } else {
      var row: Block :| row in v.blocks && c.slot <= row.slot;
      r := row;
      assert v.blockWm.Some? ==> r in FromSlot(v.blocks, v.blockWm.value + 1);
    }
  }

  lemma ExportThenImportRefusesBlocks(z: Sides, v: Validator, atts: seq<Att>, d: Validator, c: Block, strict: bool)
    requires ValidatorOn(z, v) && ValidatorOn(z, d) && AttsOn(z, atts)
    requires !SqlCheckBlk(v, c, strict).Accepted()
    ensures !SqlCheckBlk(SqlImport(d, atts, ExportBlocks(v)), c, strict).Accepted()
  {
    CheckBlkAgrees(z, v, c, strict);
    assert BlocksOn(z, ExportBlocks(v)) by {
      if v.blockWm.Some? {
        assert forall b :: b in FromSlot(v.blocks, v.blockWm.value + 1) ==> b in v.blocks;
      }
    }
    ImportAgrees(z, d, atts, ExportBlocks(v));
    var r := RefusalHasBlockWitness(v, c, strict);
    assert BlockUnderFloor(ImportRecord(d, atts, ExportBlocks(v)), r);
  }

  lemma FileRefusalHasWitness(file: seq<Att>, c: Att) returns (r: Att)
    requires FileRefusesAtt(file, c)
    ensures r in file && (c.source < r.source || c.target <= r.target)
  {
    if s :| s in file && SlashableAtts(c, s) {
      r := s;
    } else {
      r := file[0];
    }
  }

  /** A vote no newer than something under the floors is refused by the exported file. */
  lemma ExportRefusesBelowFloor(d: Validator, second: seq<Att>, r: Att, c: Att)
    requires ExportAtts(d) == Ok(second) && AttUnderFloor(d, r)
    requires c.source < r.source || c.target <= r.target
    ensures FileRefusesAtt(second, c)
  {
    ExportedFloor(d);
    RefusedBelowFloor(d, second, c);
  }

  /** Into an empty store the signed raise compares nothing. */
  lemma ImportIntoEmpty(atts: seq<Att>, blocks: seq<Block>)
    ensures SqlImport(NoHistory, atts, blocks) == ImportRecord(NoHistory, atts, blocks)
  {
  }

  /** A second export, from an empty store that imported the first file, is at least as
      strict as that file, for all `u64` values. */
  lemma ReexportIsStricter(file: seq<Att>, blocks: seq<Block>, second: seq<Att>, c: Att)
    requires ExportAtts(SqlImport(NoHistory, file, blocks)) == Ok(second)
    requires FileRefusesAtt(file, c)
    ensures FileRefusesAtt(second, c)
  {
    ImportIntoEmpty(file, blocks);
    var d := ImportRecord(NoHistory, file, blocks);
    var r := FileRefusalHasWitness(file, c);
    assert AttUnderFloor(d, r);
    ExportRefusesBelowFloor(d, second, r, c);
  }

  lemma FileRefusalHasBlock(file: seq<Block>, c: Block) returns (r: Block)
    requires FileRefusesBlock(file, c)
    ensures r in file && c.slot <= r.slot
  {
    if s :| s in file && SlashableBlocks(c, s) {
      r := s;
    } else {
      r := file[0];
    }
  }

  lemma ReexportIsStricterForBlocks(atts: seq<Att>, file: seq<Block>, c: Block)
    requires FileRefusesBlock(file, c)
    ensures FileRefusesBlock(ExportBlocks(SqlImport(NoHistory, atts, file)), c)
  {
    ImportIntoEmpty(atts, file);
    var d := ImportRecord(NoHistory, atts, file);
    var second := ExportBlocks(d);
    var r := FileRefusalHasBlock(file, c);
    assert BlockUnderFloor(d, r) && c.slot <= r.slot;
    assert forall x :: x in second ==> c.slot <= x.slot;
    assert second[0] in second && second[0].root.None?;
    assert forall x :: x in FromSlot(d.blocks, d.blockWm.value + 1) ==> d.blockWm.value < x.slot;
  }
}
