/** Nullable values and the "last present value wins" rule that every style
    merge of the toolkit follows. A Go field that may be nil is an
    `Option` here. */
module Optional {

  datatype Option<+T> = None | Some(value: T) {

    /** The value, or `default` when absent (a nil field read as zero). */
    function GetOr(default: T): T {
      match this
      case Some(v) => v
      case None => default
    }
  }

  /** One override step for one field: a present override replaces the
      current value, an absent one keeps it. */
  function Pick<T>(current: Option<T>, override: Option<T>): (r: Option<T>)
    ensures override.Some? ==> r == override
    ensures override.None? ==> r == current
  {
    if override.Some? then override else current
  }

  /** What a field ends up as after applying `overrides` in order on top of
      `base`: read from the end, the first present override. */
  function LastPresent<T>(base: Option<T>, overrides: seq<Option<T>>): Option<T>
    decreases |overrides|
  {
    if |overrides| == 0 then base
    else Pick(LastPresent(base, overrides[..|overrides| - 1]), overrides[|overrides| - 1])
  }

  /** `LastPresent` keeps the base exactly when no override is present, and otherwise
      yields the present override with the highest index. */
  lemma {:induction false} LastWins<T>(base: Option<T>, overrides: seq<Option<T>>)
    ensures (forall i | 0 <= i < |overrides| :: overrides[i].None?) ==> LastPresent(base, overrides) == base
    ensures forall i | 0 <= i < |overrides| && overrides[i].Some? &&
                       (forall j | i < j < |overrides| :: overrides[j].None?) ::
              LastPresent(base, overrides) == overrides[i]
    ensures LastPresent(base, overrides).None? ==> base.None?
    decreases |overrides|
  {
    if |overrides| > 0 {
      var n := |overrides| - 1;
      var front := overrides[..n];
      LastWins(base, front);
      forall i | 0 <= i < |overrides| && overrides[i].Some? &&
                 (forall j | i < j < |overrides| :: overrides[j].None?)
        ensures LastPresent(base, overrides) == overrides[i]
      {
        if i < n {
          assert forall j | i < j < n :: front[j] == overrides[j];
        }
      }
      assert forall i | 0 <= i < n :: front[i] == overrides[i];
    }
  }
}
