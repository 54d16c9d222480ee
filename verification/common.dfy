/** Shared vocabulary: an optional value, the millisecond constants the
    source spells out as products (`24 * 60 * 60 * 1000` and the like), and
    the two queries every collection is searched with.
    Timestamps throughout the model are integer milliseconds since the epoch,
    as JavaScript `Date` values compare. */
module Common {

  datatype Option<+T> = None | Some(value: T)

  const SecondMs: int := 1000
  const MinuteMs: int := 60 * SecondMs
  const HourMs: int := 60 * MinuteMs
  /** One calendar day, read as a whole day of milliseconds (no DST, no time zone). */
  const DayMs: int := 24 * HourMs
  const WeekMs: int := 7 * DayMs

  // ------------------------------------------------ queries over a collection

  /** The first position whose element satisfies `p` (what `findOne` returns
      when at most one document can match). */
  function FindFirst<T>(s: seq<T>, p: T -> bool): (r: Option<nat>)
    ensures r.Some? ==> r.value < |s| && p(s[r.value])
    ensures r.Some? ==> forall j :: 0 <= j < r.value ==> !p(s[j])
    ensures r.None? <==> forall j :: 0 <= j < |s| ==> !p(s[j])
  {
    if s == [] then None
    else if p(s[0]) then Some(0)
    else
      var r := FindFirst(s[1..], p);
      assert forall j :: 1 <= j < |s| ==> s[j] == s[1..][j - 1];
      if r.None? then None else Some(r.value + 1)
  }

  /** How many elements satisfy `p` (`countDocuments`). */
  function CountWhere<T>(s: seq<T>, p: T -> bool): (n: nat)
    ensures n <= |s|
  {
    if s == [] then 0
    else CountWhere(s[..|s| - 1], p) + (if p(s[|s| - 1]) then 1 else 0)
  }

  lemma CountAppend<T>(s: seq<T>, x: T, p: T -> bool)
    ensures CountWhere(s + [x], p) == CountWhere(s, p) + (if p(x) then 1 else 0)
  {
    assert (s + [x])[..|s|] == s;
  }

  /** Nothing satisfies `p` exactly when the count is zero. */
  lemma {:induction false} CountZero<T>(s: seq<T>, p: T -> bool)
    ensures CountWhere(s, p) == 0 <==> forall j :: 0 <= j < |s| ==> !p(s[j])
  {
    if s != [] {
      var t := s[..|s| - 1];
      CountZero(t, p);
      assert forall j :: 0 <= j < |t| ==> t[j] == s[j];
    }
  }

}
