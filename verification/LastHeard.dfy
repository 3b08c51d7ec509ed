/**
 When a contact was last heard: computed on every sync (`reported_last_heard` in
 storage/repositories.py) and once more, in SQL, by the v3 repair (storage/database.py), which is
 documented to be kept in step with it.
 */
module LastHeard {
  import opened Bytes

  /** A reported time that is trusted: present, not zero, not in the future. */
  predicate Counts(t: Option<int>, now: int) {
    t.Some? && t.value != 0 && t.value <= now
  }

  function Larger(a: int, b: int): int {
    if a <= b then b else a
  }

  /** The latest of the trusted times, and 0 when there is none. */
  function ReportedLastHeard(lastAdvert: Option<int>, lastmod: Option<int>, now: int): (r: int)
    ensures forall t :: (t == lastAdvert || t == lastmod) && Counts(t, now) ==> t.value <= r
    ensures (Counts(Some(r), now) && (Some(r) == lastAdvert || Some(r) == lastmod))
            || (r == 0 && !Counts(lastAdvert, now) && !Counts(lastmod, now))
  {
    if Counts(lastAdvert, now) then
      if Counts(lastmod, now) then Larger(lastAdvert.value, lastmod.value) else lastAdvert.value
    else if Counts(lastmod, now) then lastmod.value
    else 0
  }

  /** In plain terms: the greatest of the two that is there, is not zero and is not later than now; or zero. */
  lemma ReportedInPlainTerms(a: Option<int>, b: Option<int>, now: int, r: int)
    ensures ReportedLastHeard(a, b, now) == r && r != 0 <==>
              && r != 0 && r <= now && (a == Some(r) || b == Some(r))
              && forall t :: (a == Some(t) || b == Some(t)) && t != 0 && t <= now ==> t <= r
  {
  }

  /** CASE WHEN t <= now THEN t ELSE 0 END; a comparison with NULL is not true. */
  function OrZero(t: Option<int>, now: int): int {
    if t.Some? && t.value <= now then t.value else 0
  }

  function Repaired(lastAdvert: Option<int>, lastmod: Option<int>, now: int): int {
    Larger(OrZero(lastAdvert, now), OrZero(lastmod, now))
  }

  /** The two agree unless exactly one time is trusted and that one is negative: the repair then says 0. */
  lemma RepairAgreesExactlyWhen(a: Option<int>, b: Option<int>, now: int)
    ensures Repaired(a, b, now) == ReportedLastHeard(a, b, now) <==>
              && !(Counts(a, now) && a.value < 0 && !Counts(b, now))
              && !(Counts(b, now) && b.value < 0 && !Counts(a, now))
  {
  }
}
