/**
 * The shared state of every cell-information record: whether the device is
 * registered on the cell, when the observation was made and by whom it was
 * time-stamped, and the cell's serving role. Setters are pure updates; the
 * value semantics are `Equals` and the Java `hashCode` formula.
 */
module CellState {
  import opened JavaInt
  import opened Wrappers

  // Where the time stamp was recorded.
  const TIMESTAMP_TYPE_UNKNOWN: Int32 := 0
  const TIMESTAMP_TYPE_ANTENNA: Int32 := 1
  const TIMESTAMP_TYPE_MODEM: Int32 := 2
  const TIMESTAMP_TYPE_OEM_RIL: Int32 := 3
  const TIMESTAMP_TYPE_JAVA_RIL: Int32 := 4

  // Serving role of the cell. The setter accepts any `int`: the annotation
  // restricting it to these values has no run-time effect.
  const CONNECTION_NONE: Int32 := 0
  const CONNECTION_PRIMARY_SERVING: Int32 := 1
  const CONNECTION_SECONDARY_SERVING: Int32 := 2
  const CONNECTION_UNKNOWN: Int32 := MAX_INT

  /** Multiplier of every term of the hash. */
  const HASH_PRIME: Int32 := 31

  datatype CellInfo = CellInfo(
    registered: bool,
    timeStamp: Int64,        // nanoseconds since boot
    timeStampType: Int32,    // one of TIMESTAMP_TYPE_*, unless decoded raw from a parcel
    cellConnectionStatus: Int32)

  /** The time-stamp type is one of the five recognized values. */
  predicate ValidTimeStampType(t: int) {
    TIMESTAMP_TYPE_UNKNOWN <= t <= TIMESTAMP_TYPE_JAVA_RIL
  }

  /** The protected no-argument constructor: nothing observed yet. */
  function Default(): (c: CellInfo)
    ensures !c.registered
    ensures c.timeStamp == MAX_LONG
    ensures c.timeStampType == TIMESTAMP_TYPE_UNKNOWN
    ensures c.cellConnectionStatus == CONNECTION_NONE
  {
    CellInfo(false, MAX_LONG, TIMESTAMP_TYPE_UNKNOWN, CONNECTION_NONE)
  }

  /** The protected copy constructor: copies the four shared fields. */
  function Copy(ci: CellInfo): (c: CellInfo)
    ensures Equals(c, Some(ci)) && Equals(ci, Some(c))
    ensures HashCode(c) == HashCode(ci)
  {
    CellInfo(ci.registered, ci.timeStamp, ci.timeStampType, ci.cellConnectionStatus)
  }

  function SetRegistered(c: CellInfo, registered: bool): (r: CellInfo)
    ensures r.registered == registered
    ensures r.timeStamp == c.timeStamp && r.timeStampType == c.timeStampType
    ensures r.cellConnectionStatus == c.cellConnectionStatus
  {
    c.(registered := registered)
  }

  function SetTimeStamp(c: CellInfo, timeStamp: Int64): (r: CellInfo)
    ensures r.timeStamp == timeStamp
    ensures r.registered == c.registered && r.timeStampType == c.timeStampType
    ensures r.cellConnectionStatus == c.cellConnectionStatus
  {
    c.(timeStamp := timeStamp)
  }

  function SetCellConnectionStatus(c: CellInfo, status: Int32): (r: CellInfo)
    ensures r.cellConnectionStatus == status
    ensures r.registered == c.registered && r.timeStamp == c.timeStamp
    ensures r.timeStampType == c.timeStampType
  {
    c.(cellConnectionStatus := status)
  }

  /** Out-of-range time-stamp types are normalized to UNKNOWN, never rejected. */
  function SetTimeStampType(c: CellInfo, timeStampType: Int32): (r: CellInfo)
    ensures ValidTimeStampType(r.timeStampType)
    ensures ValidTimeStampType(timeStampType) ==> r.timeStampType == timeStampType
    ensures !ValidTimeStampType(timeStampType) ==> r.timeStampType == TIMESTAMP_TYPE_UNKNOWN
    ensures r.registered == c.registered && r.timeStamp == c.timeStamp
    ensures r.cellConnectionStatus == c.cellConnectionStatus
  {
    if timeStampType < TIMESTAMP_TYPE_UNKNOWN || timeStampType > TIMESTAMP_TYPE_JAVA_RIL then
      c.(timeStampType := TIMESTAMP_TYPE_UNKNOWN)
    else
      c.(timeStampType := timeStampType)
  }

  /**
   * `equals(Object)`: false for null, otherwise a comparison of the four
   * shared fields. `None` plays the role of null.
   */
  function Equals(c: CellInfo, other: Option<CellInfo>): (r: bool)
    ensures r <==> other == Some(c)
  {
    match other
    case None => false
    case Some(o) =>
      && c.registered == o.registered
      && c.timeStamp == o.timeStamp
      && c.timeStampType == o.timeStampType
      && c.cellConnectionStatus == o.cellConnectionStatus
  }

  /** The term `registered` contributes to the hash: 0 when registered, 1 otherwise. */
  function RegisteredTerm(registered: bool): Int32 {
    if registered then 0 else 1
  }

  /**
   * `hashCode()`, evaluated as Java does: `long` division truncating toward
   * zero, a narrowing `(int)` cast, and `int` products and sums that wrap.
   * Modulo 2^32 the cast makes no difference, so the hash is 31 times the sum
   * of the four contributions, reduced to 32 bits.
   */
  function HashCode(c: CellInfo): (h: Int32)
    ensures h == Wrap32(HASH_PRIME * (RegisteredTerm(c.registered) + TruncDiv(c.timeStamp, 1000)
                                      + c.timeStampType + c.cellConnectionStatus))
  {
    var micros := TruncDiv(c.timeStamp, 1000);
    var a := Mul32(RegisteredTerm(c.registered), HASH_PRIME);
    var b := Mul32(Wrap32(micros), HASH_PRIME);
    var t := Mul32(c.timeStampType, HASH_PRIME);
    var s := Mul32(c.cellConnectionStatus, HASH_PRIME);
    var ab := Add32(a, b);
    var abt := Add32(ab, t);
    var h := Add32(abt, s);
    WrappedProduct(RegisteredTerm(c.registered), a);
    WrappedProduct(Wrap32(micros), b);
    CongruentScale(Wrap32(micros), micros, 31);
    CongruentTrans(b, 31 * Wrap32(micros), 31 * micros);
    WrappedProduct(c.timeStampType, t);
    WrappedProduct(c.cellConnectionStatus, s);
    HashCongruence(RegisteredTerm(c.registered), micros, c.timeStampType, c.cellConnectionStatus,
                   a, b, t, s, ab, abt, h);
    h
  }

  lemma WrappedProduct(x: int, a: int)
    requires MIN_INT <= x <= MAX_INT && a == Mul32(x, HASH_PRIME)
    ensures Congruent32(a, 31 * x)
  {
    CongruentTrans(a, x * 31, 31 * x);
  }

  /**
   * The stepwise-wrapped hash agrees in its low 32 bits with the exact sum:
   * `a`, `b`, `t`, `s` are the wrapped products and `ab`, `abt`, `h` the
   * wrapped partial sums.
   */
  lemma HashCongruence(x: int, m: int, y: int, z: int, a: int, b: int, t: int, s: int,
                       ab: int, abt: int, h: int)
    requires Congruent32(a, 31 * x) && Congruent32(b, 31 * m)
    requires Congruent32(t, 31 * y) && Congruent32(s, 31 * z)
    requires Congruent32(a + b, ab) && Congruent32(ab + t, abt) && Congruent32(abt + s, h)
    requires MIN_INT <= h <= MAX_INT
    ensures h == Wrap32(HASH_PRIME * (x + m + y + z))
  {
    SumStep(a, 31 * x, b, 31 * m, ab);
    SumStep(ab, 31 * x + 31 * m, t, 31 * y, abt);
    SumStep(abt, 31 * x + 31 * m + 31 * y, s, 31 * z, h);
    CongruentWrap(h, HASH_PRIME * (x + m + y + z));
  }

  lemma SumStep(u: int, u': int, v: int, v': int, w: int)
    requires Congruent32(u, u') && Congruent32(v, v') && Congruent32(u + v, w)
    ensures Congruent32(w, u' + v')
  {
    CongruentAdd(u, u', v, v');
    CongruentTrans(w, u + v, u' + v');
  }

  /** Normalizing twice is normalizing once, and a normalized value is left alone. */
  lemma SetTimeStampTypeIdempotent(c: CellInfo, t: Int32)
    ensures SetTimeStampType(SetTimeStampType(c, t), t) == SetTimeStampType(c, t)
    ensures var r := SetTimeStampType(c, t); SetTimeStampType(r, r.timeStampType) == r
  {
  }

  /** Every constructor and setter keeps the time-stamp type among the recognized values. */
  lemma SettersKeepValidTimeStampType(c: CellInfo, b: bool, ts: Int64, tt: Int32, status: Int32)
    requires ValidTimeStampType(c.timeStampType)
    ensures ValidTimeStampType(Default().timeStampType)
    ensures ValidTimeStampType(Copy(c).timeStampType)
    ensures ValidTimeStampType(SetRegistered(c, b).timeStampType)
    ensures ValidTimeStampType(SetTimeStamp(c, ts).timeStampType)
    ensures ValidTimeStampType(SetCellConnectionStatus(c, status).timeStampType)
    ensures ValidTimeStampType(SetTimeStampType(c, tt).timeStampType)
  {
  }

  /** Setters of different fields do not interfere: their order does not matter. */
  lemma SettersCommute(c: CellInfo, b: bool, ts: Int64, tt: Int32, status: Int32)
    ensures SetRegistered(SetTimeStamp(c, ts), b) == SetTimeStamp(SetRegistered(c, b), ts)
    ensures SetTimeStampType(SetCellConnectionStatus(c, status), tt)
         == SetCellConnectionStatus(SetTimeStampType(c, tt), status)
    ensures SetTimeStampType(SetRegistered(c, b), tt) == SetRegistered(SetTimeStampType(c, tt), b)
    ensures SetCellConnectionStatus(SetRegistered(c, b), status)
         == SetRegistered(SetCellConnectionStatus(c, status), b)
    ensures SetTimeStampType(SetTimeStamp(c, ts), tt) == SetTimeStamp(SetTimeStampType(c, tt), ts)
    ensures SetCellConnectionStatus(SetTimeStamp(c, ts), status)
         == SetTimeStamp(SetCellConnectionStatus(c, status), ts)
  {
  }

  /** `equals` is an equivalence relation on non-null arguments and never holds for null. */
  lemma EqualsIsEquivalence(a: CellInfo, b: CellInfo, c: CellInfo)
    ensures !Equals(a, None)
    ensures Equals(a, Some(a))
    ensures Equals(a, Some(b)) <==> Equals(b, Some(a))
    ensures Equals(a, Some(b)) && Equals(b, Some(c)) ==> Equals(a, Some(c))
  {
  }

  /** Equal records have equal hashes. */
  lemma EqualsImpliesEqualHash(a: CellInfo, b: CellInfo)
    requires Equals(a, Some(b))
    ensures HashCode(a) == HashCode(b)
  {
  }

  /**
   * The hash sees the time stamp only at microsecond resolution, with the
   * quotient rounded toward zero: -999 ns and 999 ns both contribute 0, where
   * Euclidean division would give -1 for the former.
   */
  lemma HashTruncatesTowardZero(c: CellInfo)
    ensures HashCode(c.(timeStamp := -999)) == HashCode(c.(timeStamp := 999))
    ensures HashCode(c.(timeStamp := 1000)) == HashCode(c.(timeStamp := 1999))
  {
  }

  /** The hash of a default-constructed record. */
  lemma DefaultHash()
    ensures HashCode(Default()) == 377957128
  {
    assert TruncDiv(MAX_LONG, 1000) == 9223372036854775;
    assert HASH_PRIME * (1 + 9223372036854775) == 285924533142498056;
  }
}
