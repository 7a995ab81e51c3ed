/**
 * `toString()` of a cell-information record, and `ParseRendering`, which
 * inverts `ToString`: the rendering loses nothing but the distinction among
 * unrecognized time-stamp types.
 */
module CellText {
  import opened JavaInt
  import opened Wrappers
  import opened Decimal
  import opened CellState

  /** Fixed name table for time-stamp types; anything unrecognized is "unknown". */
  function TimeStampTypeToString(t: int): (name: string)
    ensures name == "unknown" <==> !(TIMESTAMP_TYPE_ANTENNA <= t <= TIMESTAMP_TYPE_JAVA_RIL)
    ensures ' ' !in name
    ensures ValidTimeStampType(t) ==> TimeStampTypeOfName(name) == Some(t)
  {
    match t
    case 1 => "antenna"
    case 2 => "modem"
    case 3 => "oem_ril"
    case 4 => "java_ril"
    case _ => "unknown"
  }

  /** Inverse of the name table on the five recognized types. */
  function TimeStampTypeOfName(name: string): (t: Option<int>)
    ensures t.Some? ==> ValidTimeStampType(t.value)
  {
    if name == "unknown" then Some(TIMESTAMP_TYPE_UNKNOWN)
    else if name == "antenna" then Some(TIMESTAMP_TYPE_ANTENNA)
    else if name == "modem" then Some(TIMESTAMP_TYPE_MODEM)
    else if name == "oem_ril" then Some(TIMESTAMP_TYPE_OEM_RIL)
    else if name == "java_ril" then Some(TIMESTAMP_TYPE_JAVA_RIL)
    else None
  }

  function YesNo(b: bool): string {
    if b then "YES" else "NO"
  }

  /** `toString()`. Reading the result back recovers everything it shows. */
  function ToString(c: CellInfo): (s: string)
    ensures ParseRendering(s) == Some(Rendering(
      c.registered, TimeStampTypeToString(c.timeStampType), c.timeStamp, c.cellConnectionStatus))
  {
    var name := TimeStampTypeToString(c.timeStampType);
    var s3 := ToDecimal(c.timeStamp) + ("ns mCellConnectionStatus=" + ToDecimal(c.cellConnectionStatus));
    var s2 := name + (" mTimeStamp=" + s3);
    ParseRenderingOf(c.registered, s2);
    ParseFromTypeNameOf(c.registered, name, s3);
    ParseFromTimeStampOf(c.registered, name, c.timeStamp, c.cellConnectionStatus);
    Layout(YesNo(c.registered), name, ToDecimal(c.timeStamp), ToDecimal(c.cellConnectionStatus))
  }

  /** The fixed text around the four rendered fields. */
  function Layout(registered: string, typeName: string, timeStamp: string, status: string): string {
    "mRegistered=" + (registered
    + (" mTimeStampType=" + (typeName
    + (" mTimeStamp=" + (timeStamp
    + ("ns mCellConnectionStatus=" + status))))))
  }

  /** What a rendering shows of a record. */
  datatype Rendering = Rendering(
    registered: bool,
    timeStampTypeName: string,
    timeStamp: int,
    cellConnectionStatus: int)

  function StripPrefix(s: string, lit: string): (rest: Option<string>)
    ensures rest.Some? ==> s == lit + rest.value
  {
    if |lit| <= |s| && s[..|lit|] == lit then
      assert s == s[..|lit|] + s[|lit|..];
      Some(s[|lit|..])
    else None
  }

  function ParseYesNo(s: string): Option<(bool, string)> {
    match StripPrefix(s, "YES")
    case Some(rest) => Some((true, rest))
    case None =>
      match StripPrefix(s, "NO")
      case Some(rest) => Some((false, rest))
      case None => None
  }

  /** The number of characters before the first space. */
  function WordLength(s: string): (k: nat)
    ensures k <= |s|
    ensures forall i :: 0 <= i < k ==> s[i] != ' '
  {
    if |s| == 0 || s[0] == ' ' then 0 else 1 + WordLength(s[1..])
  }

  /** Reads a rendering produced by `ToString`; `None` for any other text. */
  function ParseRendering(s: string): Option<Rendering> {
    var s1 :- StripPrefix(s, "mRegistered=");
    var yn :- ParseYesNo(s1);
    var s2 :- StripPrefix(yn.1, " mTimeStampType=");
    ParseFromTypeName(yn.0, s2)
  }

  function ParseFromTypeName(registered: bool, s: string): Option<Rendering> {
    var k := WordLength(s);
    var rest :- StripPrefix(s[k..], " mTimeStamp=");
    ParseFromTimeStamp(registered, s[..k], rest)
  }

  function ParseFromTimeStamp(registered: bool, name: string, s: string): Option<Rendering> {
    var ts :- ParseDecimal(s);
    var rest :- StripPrefix(ts.1, "ns mCellConnectionStatus=");
    var st :- ParseDecimal(rest);
    if st.1 == [] then Some(Rendering(registered, name, ts.0, st.0)) else None
  }

  lemma StripLiteral(lit: string, rest: string)
    ensures StripPrefix(lit + rest, lit) == Some(rest)
  {
    assert (lit + rest)[..|lit|] == lit;
    assert (lit + rest)[|lit|..] == rest;
  }

  lemma {:induction false} WordLengthAppend(w: string, rest: string)
    requires ' ' !in w
    requires rest == [] || rest[0] == ' '
    ensures WordLength(w + rest) == |w|
    decreases |w|
  {
    if |w| == 0 {
      assert w + rest == rest;
    } else {
      assert (w + rest)[0] == w[0];
      assert (w + rest)[1..] == w[1..] + rest;
      WordLengthAppend(w[1..], rest);
    }
  }

  lemma ParseFromTimeStampOf(registered: bool, name: string, ts: int, status: int)
    ensures ParseFromTimeStamp(registered, name,
              ToDecimal(ts) + ("ns mCellConnectionStatus=" + ToDecimal(status)))
            == Some(Rendering(registered, name, ts, status))
  {
    ParseToDecimal(ts, "ns mCellConnectionStatus=" + ToDecimal(status));
    StripLiteral("ns mCellConnectionStatus=", ToDecimal(status));
    ParseToDecimal(status, []);
    assert ToDecimal(status) + [] == ToDecimal(status);
  }

  lemma ParseFromTypeNameOf(registered: bool, name: string, rest: string)
    requires ' ' !in name
    ensures ParseFromTypeName(registered, name + (" mTimeStamp=" + rest))
            == ParseFromTimeStamp(registered, name, rest)
  {
    var s := name + (" mTimeStamp=" + rest);
    WordLengthAppend(name, " mTimeStamp=" + rest);
    assert s[..|name|] == name;
    assert s[|name|..] == " mTimeStamp=" + rest;
    StripLiteral(" mTimeStamp=", rest);
  }

  lemma ParseRenderingOf(registered: bool, rest: string)
    ensures ParseRendering("mRegistered=" + (YesNo(registered) + (" mTimeStampType=" + rest)))
            == ParseFromTypeName(registered, rest)
  {
    var s1 := YesNo(registered) + (" mTimeStampType=" + rest);
    StripLiteral("mRegistered=", s1);
    if registered {
      StripLiteral("YES", " mTimeStampType=" + rest);
    } else {
      assert s1[..2] == "NO";
      StripLiteral("NO", " mTimeStampType=" + rest);
    }
    StripLiteral(" mTimeStampType=", rest);
  }

  /**
   * For records whose time-stamp type is recognized, the rendering
   * determines the record completely.
   */
  lemma ToStringInjective(a: CellInfo, b: CellInfo)
    requires ValidTimeStampType(a.timeStampType) && ValidTimeStampType(b.timeStampType)
    ensures ToString(a) == ToString(b) ==> a == b
  {
    if ToString(a) == ToString(b) {
      assert ParseRendering(ToString(a)) == ParseRendering(ToString(b));
      var na := TimeStampTypeToString(a.timeStampType);
      assert TimeStampTypeOfName(na) == Some(a.timeStampType as int);
      var nb := TimeStampTypeToString(b.timeStampType);
      assert TimeStampTypeOfName(nb) == Some(b.timeStampType as int);
    }
  }

  /** Every unrecognized time-stamp type renders exactly as UNKNOWN does. */
  lemma UnknownTypesRenderAlike(c: CellInfo, t: Int32)
    requires !ValidTimeStampType(t)
    ensures ToString(c.(timeStampType := t)) == ToString(c.(timeStampType := TIMESTAMP_TYPE_UNKNOWN))
  {
  }

  /** What the rendering of a default-constructed record shows. */
  lemma DefaultRendering()
    ensures ParseRendering(ToString(Default()))
            == Some(Rendering(false, "unknown", MAX_LONG, CONNECTION_NONE))
  {
    var s := ToString(Default());
  }
}
