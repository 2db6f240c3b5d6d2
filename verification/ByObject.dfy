// The comparison of the resources behind entries (internal/spireentry/byobject.go).
module ByObject {
  import opened Wrappers
  import opened Text

  newtype int64 = x: int | -0x8000_0000_0000_0000 <= x < 0x8000_0000_0000_0000

  const TWO_TO_THE_63: int := 0x8000_0000_0000_0000
  const TWO_TO_THE_64: int := 0x1_0000_0000_0000_0000

  /** A resource: the times of its creation and deletion in nanoseconds, and its UID. */
  datatype Object = Object(created: int64, deleted: Option<int64>, uid: string)

  /** Subtraction of Go's int64, which wraps around. */
  function Minus(a: int64, b: int64): int64 {
    var d := a as int - b as int;
    if d >= TWO_TO_THE_63 then (d - TWO_TO_THE_64) as int64
    else if d < -TWO_TO_THE_63 then (d + TWO_TO_THE_64) as int64
    else d as int64
  }

  /** objectCmp */
  function ObjectCmp(a: Object, b: Object): int {
    var creationDiff := Minus(a.created, b.created);
    if creationDiff < 0 then -1
    else if creationDiff > 0 then 1
    else
      match (a.deleted, b.deleted)
      case (None, None) => CompareUIDs(a.uid, b.uid)
      case (Some(_), None) => 1
      case (None, Some(_)) => -1
      case (Some(x), Some(y)) =>
        var deleteDiff := Minus(x, y);
        if deleteDiff < 0 then 1
        else if deleteDiff > 0 then -1
        else CompareUIDs(a.uid, b.uid)
  }

  function CompareUIDs(a: string, b: string): int {
    if Less(a, b) then -1 else if Less(b, a) then 1 else 0
  }

  // ----- the intended order

  /** No deletion time is before every deletion time, and a later one is before an earlier one. */
  predicate DeletedBefore(a: Option<int64>, b: Option<int64>) {
    b.Some? && (a.None? || a.value > b.value)
  }

  /** Ascending by creation, descending by deletion, ascending by UID. */
  predicate Before(a: Object, b: Object) {
    || a.created < b.created
    || (a.created == b.created && DeletedBefore(a.deleted, b.deleted))
    || (a.created == b.created && a.deleted == b.deleted && Less(a.uid, b.uid))
  }

  function Intended(a: Object, b: Object): int {
    if Before(a, b) then -1 else if Before(b, a) then 1 else 0
  }

  /** The intended order is a strict total order. */
  lemma BeforeIsTotalOrder(a: Object, b: Object, c: Object)
    ensures !Before(a, a)
    ensures Before(a, b) && Before(b, c) ==> Before(a, c)
    ensures Before(a, b) || Before(b, a) || a == b
  {
    LessIrreflexive(a.uid);
    LessTotal(a.uid, b.uid);
    if Less(a.uid, b.uid) && Less(b.uid, c.uid) {
      LessTransitive(a.uid, b.uid, c.uid);
    }
  }

  // ----- the code against it

  /** The difference fits into an int64. */
  predicate InRange(a: int64, b: int64) {
    -TWO_TO_THE_63 <= a as int - b as int < TWO_TO_THE_63
  }

  /** No subtraction of the comparison wraps around. */
  predicate NoWrap(a: Object, b: Object) {
    && InRange(a.created, b.created)
    && (a.created == b.created && a.deleted.Some? && b.deleted.Some? ==> InRange(a.deleted.value, b.deleted.value))
  }

  lemma CompareUIDsIsExact(a: string, b: string)
    ensures CompareUIDs(a, b) == 0 <==> a == b
    ensures Less(a, b) ==> !Less(b, a)
  {
    LessTotal(a, b);
    LessIrreflexive(a);
    if Less(a, b) && Less(b, a) {
      LessTransitive(a, b, a);
    }
  }

  /** The comparison gives the intended order exactly when neither of its subtractions wraps around. */
  lemma ObjectCmpExact(a: Object, b: Object)
    ensures ObjectCmp(a, b) == Intended(a, b) <==> NoWrap(a, b)
  {
  }

  /** It is zero only for objects that agree in all three keys, whatever wraps around. */
  lemma ZeroMeansEqual(a: Object, b: Object)
    ensures ObjectCmp(a, b) == 0 <==> a == b
  {
    CompareUIDsIsExact(a.uid, b.uid);
  }

  /** Exchanging the arguments changes the sign, unless the times differ by exactly 2^63. */
  lemma AntisymmetricExactly(a: Object, b: Object)
    ensures ObjectCmp(a, b) == -ObjectCmp(b, a) <==>
      var far := (x: int64, y: int64) => x as int - y as int == TWO_TO_THE_63 || y as int - x as int == TWO_TO_THE_63;
      && !far(a.created, b.created)
      && (a.created == b.created && a.deleted.Some? && b.deleted.Some? ==> !far(a.deleted.value, b.deleted.value))
  {
    CompareUIDsIsExact(a.uid, b.uid);
    CompareUIDsIsExact(b.uid, a.uid);
  }

  /** The times of `s` span less than 2^63 nanoseconds. */
  predicate ShortSpan(s: set<Object>) {
    forall a, b | a in s && b in s ::
      && InRange(a.created, b.created)
      && (a.deleted.Some? && b.deleted.Some? ==> InRange(a.deleted.value, b.deleted.value))
  }

  /** On such objects the comparison is a total order. */
  lemma TotalOrderOnShortSpan(s: set<Object>, a: Object, b: Object, c: Object)
    requires ShortSpan(s) && a in s && b in s && c in s
    ensures ObjectCmp(a, b) == -ObjectCmp(b, a)
    ensures ObjectCmp(a, b) <= 0 && ObjectCmp(b, c) <= 0 ==> ObjectCmp(a, c) <= 0
    ensures ObjectCmp(a, b) == 0 <==> a == b
  {
    ObjectCmpExact(a, b);
    ObjectCmpExact(b, a);
    ObjectCmpExact(b, c);
    ObjectCmpExact(a, c);
    BeforeIsTotalOrder(a, b, c);
    BeforeIsTotalOrder(b, a, b);
    BeforeIsTotalOrder(b, c, b);
    BeforeIsTotalOrder(c, a, c);
    BeforeIsTotalOrder(a, c, a);
  }

  /** On objects further apart it can go round in a circle. */
  lemma Circle(uid: string)
    ensures
      var a, b, c := Object(-0x6000_0000_0000_0000, None, uid), Object(0, None, uid),
          Object(0x6000_0000_0000_0000, None, uid);
      ObjectCmp(a, b) < 0 && ObjectCmp(b, c) < 0 && ObjectCmp(c, a) < 0
  {
  }
}
