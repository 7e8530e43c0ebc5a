/** The `{ hours, minutes, seconds }` objects of the playlist code: the
    field-wise sum of `calculateTotalDuration` and the carry of
    `normalizeTime`. All three fields come from `\d+`, so they are naturals. */
module Durations {

  datatype Duration = Duration(hours: nat, minutes: nat, seconds: nat)

  const Zero := Duration(0, 0, 0)

  function Hours(d: Duration): nat { d.hours }
  function Minutes(d: Duration): nat { d.minutes }
  function Seconds(d: Duration): nat { d.seconds }

  /** The length of time a triple stands for, whatever its carries. */
  function TotalSeconds(d: Duration): nat {
    3600 * d.hours + 60 * d.minutes + d.seconds
  }

  /** The invariant `normalizeTime` establishes. */
  predicate IsNormal(d: Duration) {
    d.minutes < 60 && d.seconds < 60
  }

  /** One step of the `reduce` in `calculateTotalDuration`. */
  function Add(a: Duration, b: Duration): (r: Duration)
    ensures TotalSeconds(r) == TotalSeconds(a) + TotalSeconds(b)
  {
    Duration(a.hours + b.hours, a.minutes + b.minutes, a.seconds + b.seconds)
  }

  /** Reference: the plain sum of one field over a list. */
  function FieldTotal(ds: seq<Duration>, field: Duration -> nat): nat {
    if |ds| == 0 then 0 else field(ds[0]) + FieldTotal(ds[1..], field)
  }

  lemma {:induction false} FieldTotalAppend(ds: seq<Duration>, d: Duration, field: Duration -> nat)
    ensures FieldTotal(ds + [d], field) == FieldTotal(ds, field) + field(d)
  {
    if |ds| > 0 {
      assert (ds + [d])[1..] == ds[1..] + [d];
      FieldTotalAppend(ds[1..], d, field);
    }
  }

  /** `calculateTotalDuration`: a left fold of `Add` from `{0, 0, 0}`. Each
      field of the result is the sum of that field, with no carry, so the
      result stands for the total length of the list. */
  function Sum(ds: seq<Duration>): (r: Duration)
    ensures r.hours == FieldTotal(ds, Hours)
    ensures r.minutes == FieldTotal(ds, Minutes)
    ensures r.seconds == FieldTotal(ds, Seconds)
    ensures TotalSeconds(r) == FieldTotal(ds, TotalSeconds)
  {
    if |ds| == 0 then
      Zero
    else
      var init, last := ds[..|ds| - 1], ds[|ds| - 1];
      assert ds == init + [last];
      FieldTotalAppend(init, last, Hours);
      FieldTotalAppend(init, last, Minutes);
      FieldTotalAppend(init, last, Seconds);
      FieldTotalAppend(init, last, TotalSeconds);
      Add(Sum(init), last)
  }

  /** `normalizeTime`: seconds carry into minutes, then minutes into hours. */
  function Normalize(d: Duration): (r: Duration)
    ensures IsNormal(r)
    ensures TotalSeconds(r) == TotalSeconds(d)
  {
    var minutes := d.minutes + d.seconds / 60;
    Duration(d.hours + minutes / 60, minutes % 60, d.seconds % 60)
  }

  /** A normal triple is determined by the length it stands for. */
  lemma NormalUnique(a: Duration, b: Duration)
    requires IsNormal(a) && IsNormal(b)
    requires TotalSeconds(a) == TotalSeconds(b)
    ensures a == b
  {
    var ma := 60 * a.hours + a.minutes;
    var mb := 60 * b.hours + b.minutes;
    assert TotalSeconds(a) == 60 * ma + a.seconds;
    assert TotalSeconds(b) == 60 * mb + b.seconds;
    DivModOfSum(ma, a.seconds);
    DivModOfSum(mb, b.seconds);
    DivModOfSum(a.hours, a.minutes);
    DivModOfSum(b.hours, b.minutes);
  }

  lemma DivModOfSum(q: nat, r: nat)
    requires r < 60
    ensures (60 * q + r) / 60 == q && (60 * q + r) % 60 == r
  {
  }

  /** Normalizing is a no-op exactly on normal triples. */
  lemma NormalizeFixesNormal(d: Duration)
    ensures Normalize(d) == d <==> IsNormal(d)
  {
    if IsNormal(d) {
      NormalUnique(Normalize(d), d);
    }
  }

  lemma NormalizeIdempotent(d: Duration)
    ensures Normalize(Normalize(d)) == Normalize(d)
  {
    NormalizeFixesNormal(Normalize(d));
  }

  /** Two triples normalize alike exactly when they stand for the same length. */
  lemma NormalizeSameLength(a: Duration, b: Duration)
    ensures Normalize(a) == Normalize(b) <==> TotalSeconds(a) == TotalSeconds(b)
  {
    if TotalSeconds(a) == TotalSeconds(b) {
      NormalUnique(Normalize(a), Normalize(b));
    }
  }

  /** Summing with a carry after every step. */
  function SumNormalizingEachStep(ds: seq<Duration>): Duration {
    if |ds| == 0 then Zero else Normalize(Add(SumNormalizingEachStep(ds[..|ds| - 1]), ds[|ds| - 1]))
  }

  /** Normalizing once after the plain fold gives the same total as carrying
      after every step. */
  lemma {:induction false} NormalizeOnceEqualsEachStep(ds: seq<Duration>)
    ensures SumNormalizingEachStep(ds) == Normalize(Sum(ds))
  {
    if |ds| > 0 {
      var init, last := ds[..|ds| - 1], ds[|ds| - 1];
      NormalizeOnceEqualsEachStep(init);
      NormalizeSameLength(Add(SumNormalizingEachStep(init), last), Sum(ds));
    } else {
      NormalizeFixesNormal(Zero);
    }
  }
}
