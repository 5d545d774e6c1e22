/** Resolution of the reporting window and the slot arithmetic derived from it. */
module Windows {
  import opened Common
  import opened Quotients

  const DEFAULT_EPOCHS := 32

  datatype Options = Options(
    fromEpoch: Option<int>, toEpoch: Option<int>, epochs: Option<int>, allowUnfinalized: bool, forceUnsafe: bool)

  datatype Context = Context(headSlot: nat, headEpoch: nat, finalizedEpoch: nat, slotsPerEpoch: nat)

  datatype Window = Window(
    fromEpoch: int, toEpoch: int, headEpoch: int, finalizedEpoch: int, finalizedOnly: bool,
    forcedUnsafe: bool, startSlot: int, endSlot: int, endSlotReachable: bool)

  datatype UsageError = Reversed | Negative | NotReached | Unsafe | Unreachable

  /** A context as the chain loader builds it: slots per epoch are validated to be positive
      and the head epoch is that of the head slot. */
  predicate Loaded(ctx: Context) {
    1 <= ctx.slotsPerEpoch && ctx.headEpoch == ctx.headSlot / ctx.slotsPerEpoch
  }

  function MinInt(a: int, b: int): int {
    if a < b then a else b
  }

  function ToEpoch(opts: Options, ctx: Context): int {
    match opts.toEpoch
    case Some(to) => to
    case None => if opts.allowUnfinalized then ctx.headEpoch - 2 else MinInt(ctx.headEpoch - 2, ctx.finalizedEpoch)
  }

  function FromEpoch(opts: Options, ctx: Context): int {
    match opts.fromEpoch
    case Some(from) => from
    case None => ToEpoch(opts, ctx) - (if opts.epochs.None? then DEFAULT_EPOCHS else opts.epochs.value) + 1
  }

  function ResolveWindow(opts: Options, ctx: Context): Result<Window, UsageError> {
    var maxSafe := ctx.headEpoch - 2;
    var to := ToEpoch(opts, ctx);
    var from := FromEpoch(opts, ctx);
    if from > to then Err(Reversed)
    else if from < 0 || to < 0 then Err(Negative)
    else if from > ctx.headEpoch || to > ctx.headEpoch then Err(NotReached)
    else if opts.toEpoch.Some? && to > maxSafe && !opts.forceUnsafe then Err(Unsafe)
    else
      var forced := opts.toEpoch.Some? && to > maxSafe;
      var start := (from + 1) * ctx.slotsPerEpoch;
      var end := (to + 2) * ctx.slotsPerEpoch;
      var reachable := end <= ctx.headSlot;
      if !reachable && !opts.forceUnsafe then Err(Unreachable)
      else Ok(Window(from, to, ctx.headEpoch, ctx.finalizedEpoch, to <= ctx.finalizedEpoch, forced, start, end, reachable))
  }

  /** Slots per epoch, recovered from a window's slots alone. */
  function WindowSlotsPerEpoch(w: Window): Option<int> {
    var n := w.toEpoch - w.fromEpoch + 1;
    var delta := w.endSlot - w.startSlot;
    if n <= 0 || delta <= 0 || delta % n != 0 then None
    else if delta / n >= 1 then Some(delta / n) else None
  }

  /** In every returned window `forcedUnsafe` says exactly that the end slot is not there
      yet, and the unreachable-slot error is never raised at all. */
  lemma ForcedUnsafeIffUnreachable(opts: Options, ctx: Context)
    requires Loaded(ctx)
    ensures ResolveWindow(opts, ctx) != Err(Unreachable)
    ensures ResolveWindow(opts, ctx).Ok? ==>
              var w := ResolveWindow(opts, ctx).value; w.forcedUnsafe <==> !w.endSlotReachable
  {
    var to := ToEpoch(opts, ctx);
    if 0 <= to { MultipleReached(to + 2, ctx.slotsPerEpoch, ctx.headSlot); }
  }

  /** A window is returned exactly for an ordered, non-negative, reached range that is safe
      or explicitly forced. */
  lemma ResolvesIff(opts: Options, ctx: Context)
    requires Loaded(ctx)
    ensures ResolveWindow(opts, ctx).Ok? <==>
            && 0 <= FromEpoch(opts, ctx) <= ToEpoch(opts, ctx) <= ctx.headEpoch
            && (ToEpoch(opts, ctx) <= ctx.headEpoch - 2 || opts.forceUnsafe)
  {
    ForcedUnsafeIffUnreachable(opts, ctx);
  }

  /** The window returned is the one asked for: an explicit end or start is kept; without an
      end it is the second epoch before the head, held back to the finalized one unless
      unfinalized epochs are allowed; without a start it is the requested number of epochs. */
  lemma WindowIsAsked(opts: Options, ctx: Context)
    requires ResolveWindow(opts, ctx).Ok?
    ensures var w := ResolveWindow(opts, ctx).value;
            && (opts.toEpoch.Some? ==> w.toEpoch == opts.toEpoch.value)
            && (opts.toEpoch.None? && opts.allowUnfinalized ==> w.toEpoch == ctx.headEpoch - 2)
            && (opts.toEpoch.None? && !opts.allowUnfinalized ==>
                  && w.toEpoch in {ctx.headEpoch - 2, ctx.finalizedEpoch as int}
                  && w.toEpoch <= ctx.headEpoch - 2 && w.toEpoch <= ctx.finalizedEpoch)
            && (opts.fromEpoch.Some? ==> w.fromEpoch == opts.fromEpoch.value)
            && (opts.fromEpoch.None? && opts.epochs.Some? ==> w.toEpoch - w.fromEpoch + 1 == opts.epochs.value)
            && (opts.fromEpoch.None? && opts.epochs.None? ==> w.toEpoch - w.fromEpoch + 1 == 32)
            && w.headEpoch == ctx.headEpoch && w.finalizedEpoch == ctx.finalizedEpoch
            && (w.finalizedOnly <==> w.toEpoch <= ctx.finalizedEpoch)
            && (w.forcedUnsafe <==> w.toEpoch > ctx.headEpoch - 2)
            && w.startSlot == (w.fromEpoch + 1) * ctx.slotsPerEpoch && w.endSlot == (w.toEpoch + 2) * ctx.slotsPerEpoch
            && (w.endSlotReachable <==> w.endSlot <= ctx.headSlot)
  {
  }

  /** Without an explicit range a window of `n` epochs is there exactly when `n` epochs end at
      the last one that counts: two before the head if unfinalized epochs are allowed, and no
      later than the finalized one if they are not. */
  lemma OpenWindowResolvesIff(opts: Options, ctx: Context, n: int)
    requires Loaded(ctx) && opts.toEpoch.None? && opts.fromEpoch.None?
    requires n == if opts.epochs.Some? then opts.epochs.value else 32
    ensures ResolveWindow(opts, ctx).Ok? <==>
            1 <= n && n <= ctx.headEpoch - 1 && (opts.allowUnfinalized || n <= ctx.finalizedEpoch + 1)
  {
    ResolvesIff(opts, ctx);
  }

  /** Which complaint a range that does not resolve draws. */
  lemma RefusedBecause(opts: Options, ctx: Context)
    requires Loaded(ctx) && ResolveWindow(opts, ctx).Err?
    ensures var from, to := FromEpoch(opts, ctx), ToEpoch(opts, ctx);
            ResolveWindow(opts, ctx).error
            == if from > to then Reversed else if from < 0 then Negative
               else if to > ctx.headEpoch then NotReached else Unsafe
    ensures ResolveWindow(opts, ctx).error.Unsafe? ==> opts.toEpoch.Some? && opts.toEpoch.value > ctx.headEpoch - 2
  {
    ForcedUnsafeIffUnreachable(opts, ctx);
  }

  lemma SlotSpan(from: int, to: int, spe: int)
    ensures (to + 2) * spe - (from + 1) * spe == (to - from + 1) * spe
  {
  }

  lemma RecoveredFromSpan(w: Window, n: nat, spe: nat)
    requires n == w.toEpoch - w.fromEpoch + 1 && w.endSlot - w.startSlot == n * spe
    requires 1 <= n && 1 <= spe
    ensures WindowSlotsPerEpoch(w) == Some(spe)
  {
    var delta := n * spe;
    MulGap(0, spe, n);
    QuotientIs(delta, n, spe, 0);
  }

  /** The window's slots determine the chain's slots per epoch. */
  lemma SlotsPerEpochRecovered(opts: Options, ctx: Context)
    requires Loaded(ctx) && ResolveWindow(opts, ctx).Ok?
    ensures WindowSlotsPerEpoch(ResolveWindow(opts, ctx).value) == Some(ctx.slotsPerEpoch)
  {
    var w := ResolveWindow(opts, ctx).value;
    SlotSpan(w.fromEpoch, w.toEpoch, ctx.slotsPerEpoch);
    RecoveredFromSpan(w, w.toEpoch - w.fromEpoch + 1, ctx.slotsPerEpoch);
  }

  /** Rewards of `epoch` are final and complete: it is finalized and the slot that starts the
      second epoch after it has been reached. */
  predicate Settled(ctx: Context, epoch: int) {
    epoch <= ctx.finalizedEpoch && (epoch + 2) * ctx.slotsPerEpoch <= ctx.headSlot
  }

  /** Without an explicit range the window is the requested number of settled epochs, and no
      later epoch is settled. */
  lemma DefaultWindowIsLatestSettled(opts: Options, ctx: Context, later: nat)
    requires Loaded(ctx) && opts.toEpoch.None? && opts.fromEpoch.None? && !opts.allowUnfinalized
    requires ResolveWindow(opts, ctx).Ok?
    ensures var w := ResolveWindow(opts, ctx).value;
            && w.toEpoch - w.fromEpoch + 1 == (if opts.epochs.Some? then opts.epochs.value else DEFAULT_EPOCHS)
            && Settled(ctx, w.toEpoch) && w.finalizedOnly && !w.forcedUnsafe
            && (w.toEpoch < later ==> !Settled(ctx, later))
  {
    var w := ResolveWindow(opts, ctx).value;
    ForcedUnsafeIffUnreachable(opts, ctx);
    MultipleReached(later + 2, ctx.slotsPerEpoch, ctx.headSlot);
  }
}
