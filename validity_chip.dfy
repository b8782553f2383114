/**
 * The validity chip of a dynamic access key: which of five states a key is
 * in at a given instant, and the `duration` cell that a one-second timer
 * keeps refreshing while the component is mounted.
 *
 * Timestamps are integers (milliseconds since the epoch, as `Date` compares
 * them). The expiry date that the component derives from the key, and the
 * formatter that renders the remaining time, come from a utilities file that
 * this model does not contain: the first is an input, the second an
 * uninterpreted function value.
 */
module DynamicAccessKeyValidityChip {
  import opened JsValues

  type Timestamp = int

  /** The fields of a dynamic access key that the chip reads. */
  datatype DynamicAccessKey = DynamicAccessKey(
    expiresAt: Nullable<Timestamp>,
    usageStartedAt: Nullable<Timestamp>,
    validityPeriod: Nullable<int>)

  /** What the chip shows. */
  datatype ValidityState =
    | Explicit(expiresAt: Timestamp)   // delegated to the fixed-date chip
    | NotStarted
    | Unlimited
    | Expired
    | Active(duration: string)         // the current `duration` cell

  /** The text the `duration` cell starts with. */
  const Placeholder: string := "..."

  /** JavaScript truthiness of `validityPeriod`: present and not zero. */
  predicate HasValidityPeriod(dak: DynamicAccessKey) {
    dak.validityPeriod.NonNull? && dak.validityPeriod.value != 0
  }

  /** `expiryDate && expiryDate <= now`: a `Date` is truthy whenever present. */
  predicate ExpiryReached(expiryDate: Nullable<Timestamp>, now: Timestamp) {
    expiryDate.NonNull? && expiryDate.value <= now
  }

  /**
   * The first-match-wins ladder of the component's render. The contract
   * states, for each state on its own, exactly which inputs produce it.
   */
  function Validity(dak: DynamicAccessKey, expiryDate: Nullable<Timestamp>, now: Timestamp, duration: string): (s: ValidityState)
    ensures s.Explicit? <==> dak.expiresAt.NonNull?
    ensures s.Explicit? ==> s.expiresAt == dak.expiresAt.value
    ensures s.NotStarted? <==> dak.expiresAt.Null? && dak.usageStartedAt.Null? && HasValidityPeriod(dak)
    ensures s.Unlimited? <==> dak.expiresAt.Null? && !HasValidityPeriod(dak)
    ensures s.Expired? <==>
      dak.expiresAt.Null? && dak.usageStartedAt.NonNull? && HasValidityPeriod(dak) && ExpiryReached(expiryDate, now)
    ensures s.Active? <==>
      dak.expiresAt.Null? && dak.usageStartedAt.NonNull? && HasValidityPeriod(dak) && !ExpiryReached(expiryDate, now)
    ensures s.Active? ==> s.duration == duration
  {
    if dak.expiresAt.NonNull? then Explicit(dak.expiresAt.value)
    else if dak.usageStartedAt.Null? && HasValidityPeriod(dak) then NotStarted
    else if !HasValidityPeriod(dak) then Unlimited
    else if ExpiryReached(expiryDate, now) then Expired
    else Active(duration)
  }

  /**
   * Time only moves a key forward: between an instant and a later one the
   * state either stays of the same kind or goes from Active to Expired.
   */
  lemma ValidityOnlyExpiresOverTime(dak: DynamicAccessKey, expiryDate: Nullable<Timestamp>, now: Timestamp, later: Timestamp, d: string, d': string)
    requires now <= later
    ensures Validity(dak, expiryDate, now, d).Expired? ==> Validity(dak, expiryDate, later, d').Expired?
    ensures Validity(dak, expiryDate, later, d').Active? ==> Validity(dak, expiryDate, now, d).Active?
    ensures !Validity(dak, expiryDate, now, d).Active? ==>
      Validity(dak, expiryDate, later, d') == Validity(dak, expiryDate, now, d)
  {
  }

  /** The expiry instant itself already counts as expired; the instant before is still active. */
  lemma ExpiresAtExpiryDate(dak: DynamicAccessKey, expiry: Timestamp, d: string)
    requires dak.expiresAt.Null? && dak.usageStartedAt.NonNull? && HasValidityPeriod(dak)
    ensures Validity(dak, NonNull(expiry), expiry, d) == Expired
    ensures Validity(dak, NonNull(expiry), expiry - 1, d) == Active(d)
  {
  }

  /** One run of `updateDuration`: it writes only when there is an expiry date. */
  function Refresh(cell: string, expiryDate: Nullable<Timestamp>, format: (Timestamp, Timestamp) -> string, now: Timestamp): string {
    if expiryDate.NonNull? then format(now, expiryDate.value) else cell
  }

  /** The `duration` cell after `updateDuration` ran at each of `nows`, in order. */
  function CellAfter(cell: string, expiryDate: Nullable<Timestamp>, format: (Timestamp, Timestamp) -> string, nows: seq<Timestamp>): string
    decreases |nows|
  {
    if nows == [] then cell else CellAfter(Refresh(cell, expiryDate, format, nows[0]), expiryDate, format, nows[1..])
  }

  lemma {:induction false} CellAfterAppend(cell: string, expiryDate: Nullable<Timestamp>, format: (Timestamp, Timestamp) -> string, nows: seq<Timestamp>, now: Timestamp)
    ensures CellAfter(cell, expiryDate, format, nows + [now]) == Refresh(CellAfter(cell, expiryDate, format, nows), expiryDate, format, now)
    decreases |nows|
  {
    if nows != [] {
      assert (nows + [now])[1..] == nows[1..] + [now];
      CellAfterAppend(Refresh(cell, expiryDate, format, nows[0]), expiryDate, format, nows[1..], now);
    }
  }

  /** Without an expiry date the cell is never written, however many updates are attempted. */
  lemma {:induction false} CellUnchangedWithoutExpiry(cell: string, expiryDate: Nullable<Timestamp>, format: (Timestamp, Timestamp) -> string, nows: seq<Timestamp>)
    requires expiryDate.Null?
    ensures CellAfter(cell, expiryDate, format, nows) == cell
    decreases |nows|
  {
    if nows != [] {
      CellUnchangedWithoutExpiry(Refresh(cell, expiryDate, format, nows[0]), expiryDate, format, nows[1..]);
    }
  }

  /** With an expiry date the cell shows the remaining time as of the latest update. */
  lemma {:induction false} CellShowsLatestUpdate(cell: string, expiryDate: Nullable<Timestamp>, format: (Timestamp, Timestamp) -> string, nows: seq<Timestamp>)
    requires expiryDate.NonNull? && nows != []
    ensures CellAfter(cell, expiryDate, format, nows) == format(nows[|nows| - 1], expiryDate.value)
    decreases |nows|
  {
    if |nows| > 1 {
      CellShowsLatestUpdate(Refresh(cell, expiryDate, format, nows[0]), expiryDate, format, nows[1..]);
    }
  }

  /**
   * One mounted chip for one key: the `duration` state cell and whether the
   * one-second interval is registered. `refreshes` records the instants at
   * which `updateDuration` has written the cell.
   */
  class Chip {
    const dak: DynamicAccessKey
    const expiryDate: Nullable<Timestamp>
    const format: (Timestamp, Timestamp) -> string
    var duration: string
    var ticking: bool
    ghost var refreshes: seq<Timestamp>

    ghost predicate Valid()
      reads this
    {
      && duration == CellAfter(Placeholder, expiryDate, format, refreshes)
      && (ticking ==> expiryDate.NonNull?)
    }

    /** First render: the cell holds the placeholder and no timer exists yet. */
    constructor (dak: DynamicAccessKey, expiryDate: Nullable<Timestamp>, format: (Timestamp, Timestamp) -> string)
      ensures Valid()
      ensures this.dak == dak && this.expiryDate == expiryDate && this.format == format
      ensures duration == Placeholder && !ticking && refreshes == []
    {
      this.dak := dak;
      this.expiryDate := expiryDate;
      this.format := format;
      duration := Placeholder;
      ticking := false;
      refreshes := [];
    }

    /**
     * The effect: with no expiry date it returns at once; otherwise it
     * refreshes the cell immediately and registers the interval.
     */
    method Mount(now: Timestamp)
      requires Valid()
      modifies this
      ensures Valid()
      ensures ticking == expiryDate.NonNull?
      ensures refreshes == old(refreshes) + (if expiryDate.NonNull? then [now] else [])
      ensures duration == Refresh(old(duration), expiryDate, format, now)
    {
      if expiryDate.Null? {
        return;
      }
      CellAfterAppend(Placeholder, expiryDate, format, refreshes, now);
      duration := format(now, expiryDate.value);
      refreshes := refreshes + [now];
      ticking := true;
    }

    /** One firing of the interval; nothing fires while no interval is registered. */
    method Tick(now: Timestamp)
      requires Valid()
      modifies this
      ensures Valid()
      ensures ticking == old(ticking)
      ensures refreshes == old(refreshes) + (if old(ticking) then [now] else [])
      ensures duration == if old(ticking) then format(now, expiryDate.value) else old(duration)
    {
      if ticking {
        CellAfterAppend(Placeholder, expiryDate, format, refreshes, now);
        duration := format(now, expiryDate.value);
        refreshes := refreshes + [now];
      }
    }

    /** The effect's cleanup: the interval is cleared and the cell keeps its text. */
    method Unmount()
      requires Valid()
      modifies this`ticking
      ensures Valid() && !ticking
    {
      ticking := false;
    }

    /**
     * A render at `now`. An active key shows the placeholder forever when
     * there is no expiry date, and otherwise the remaining time as of the
     * latest refresh.
     */
    method Render(now: Timestamp) returns (s: ValidityState)
      requires Valid()
      ensures s == Validity(dak, expiryDate, now, duration)
      ensures s.Active? && expiryDate.Null? ==> s.duration == Placeholder
      ensures s.Active? && refreshes == [] ==> s.duration == Placeholder
      ensures s.Active? && expiryDate.NonNull? && refreshes != [] ==>
        s.duration == format(refreshes[|refreshes| - 1], expiryDate.value)
    {
      if expiryDate.Null? {
        CellUnchangedWithoutExpiry(Placeholder, expiryDate, format, refreshes);
      } else if refreshes != [] {
        CellShowsLatestUpdate(Placeholder, expiryDate, format, refreshes);
      }
      s := Validity(dak, expiryDate, now, duration);
    }
  }
}
