/**
 * The parcel format of cell-information records and the tag dispatcher.
 * A record is written as its variant tag followed by the four shared fields
 * (the protected `writeToParcel(dest, flags, type)`), then the variant's own
 * payload. The dispatcher (`CREATOR.createFromParcel`) reads the tag and hands
 * the rest of the parcel to the variant's body decoder.
 */
module CellWire {
  import opened JavaInt
  import opened Wrappers
  import opened Parcel
  import opened CellState

  // Variant tags on the wire.
  const TYPE_UNKNOWN: Int32 := 0
  const TYPE_GSM: Int32 := 1
  const TYPE_CDMA: Int32 := 2
  const TYPE_LTE: Int32 := 3
  const TYPE_WCDMA: Int32 := 4
  const TYPE_TDSCDMA: Int32 := 5

  /** The radio access technologies with a concrete record variant. */
  datatype Technology = Gsm | Cdma | Lte | Wcdma | Tdscdma

  function TypeTag(t: Technology): (tag: Int32)
    ensures TYPE_GSM <= tag <= TYPE_TDSCDMA
  {
    match t
    case Gsm => TYPE_GSM
    case Cdma => TYPE_CDMA
    case Lte => TYPE_LTE
    case Wcdma => TYPE_WCDMA
    case Tdscdma => TYPE_TDSCDMA
  }

  /** The technology a tag selects; `None` for UNKNOWN and every other value. */
  function TechnologyOf(tag: int): (t: Option<Technology>)
    ensures t.Some? <==> TYPE_GSM <= tag <= TYPE_TDSCDMA
    ensures t.Some? ==> TypeTag(t.value) == tag
  {
    match tag
    case 1 => Some(Gsm)
    case 2 => Some(Cdma)
    case 3 => Some(Lte)
    case 4 => Some(Wcdma)
    case 5 => Some(Tdscdma)
    case _ => None
  }

  /** Why a parcel could not be decoded. */
  datatype DecodeError =
    | ParcelFault(reason: ParcelError)    // a slot was missing or of the wrong width
    | BadCellInfoParcel(tag: Int32)       // the leading tag names no variant

  /** A variant's body decoder: reads what follows the tag, returns the record and the parcel after it. */
  type BodyDecoder<T> = Technology -> Parcel -> Result<(T, Parcel), DecodeError>

  function Lift<T>(r: Result<T, ParcelError>): (l: Result<T, DecodeError>)
    ensures l.Success? <==> r.Success?
    ensures l.Success? ==> l.value == r.value
  {
    match r
    case Success(v) => Success(v)
    case Failure(e) => Failure(ParcelFault(e))
  }

  /** The five slots the shared prefix of a record occupies. */
  function BaseSlots(c: CellInfo, tag: Int32): seq<Slot> {
    [IntSlot(tag), IntSlot(if c.registered then 1 else 0), IntSlot(c.timeStampType),
     LongSlot(c.timeStamp), IntSlot(c.cellConnectionStatus)]
  }

  /** The protected `writeToParcel(dest, flags, type)`; `flags` is unused and left out. */
  function WriteToParcel(dest: Parcel, c: CellInfo, tag: Int32): (q: Parcel)
    requires dest.pos <= |dest.slots|
    ensures q.slots == dest.slots + BaseSlots(c, tag)
    ensures q.pos == dest.pos <= |q.slots|
    ensures q.Unread() == dest.Unread() + BaseSlots(c, tag)
  {
    var p1 := WriteInt(dest, tag);
    var p2 := WriteInt(p1, if c.registered then 1 else 0);
    var p3 := WriteInt(p2, c.timeStampType);
    var p4 := WriteLong(p3, c.timeStamp);
    WriteInt(p4, c.cellConnectionStatus)
  }

  /** The next four unread slots have the widths of the shared fields after the tag. */
  predicate BodyAhead(u: seq<Slot>) {
    |u| >= 4 && u[0].IntSlot? && u[1].IntSlot? && u[2].LongSlot? && u[3].IntSlot?
  }

  /**
   * The protected `CellInfo(Parcel)` constructor: reads the four shared
   * fields after the tag. `registered` holds only for the value 1; the
   * time-stamp type is stored as read, without normalization.
   */
  function ReadBody(p: Parcel): (r: Result<(CellInfo, Parcel), DecodeError>)
    ensures r.Success? <==> BodyAhead(p.Unread())
    ensures r.Success? ==>
      var u := p.Unread();
      var c := r.value.0;
      && (c.registered <==> u[0].i == 1)
      && c.timeStampType == u[1].i
      && c.timeStamp == u[2].l
      && c.cellConnectionStatus == u[3].i
      && r.value.1 == p.(pos := p.pos + 4)
      && r.value.1.Unread() == u[4..]
  {
    var reg :- Lift(ReadInt(p));
    var tst :- Lift(ReadInt(reg.1));
    var ts :- Lift(ReadLong(tst.1));
    var st :- Lift(ReadInt(ts.1));
    Success((CellInfo(reg.0 == 1, ts.0, tst.0, st.0), st.1))
  }

  /**
   * `CREATOR.createFromParcel`: reads the tag and dispatches on it. Tags 1 to
   * 5 go to the matching variant's body decoder; any other tag is the
   * "Bad CellInfo Parcel" failure, and no decoder runs.
   */
  function CreateFromParcel<T>(p: Parcel, decode: BodyDecoder<T>): (r: Result<(T, Parcel), DecodeError>)
    ensures (|p.Unread()| == 0 || p.Unread()[0].LongSlot?) ==> r.Failure? && r.error.ParcelFault?
    ensures |p.Unread()| > 0 && p.Unread()[0].IntSlot? ==>
      var tag := p.Unread()[0].i;
      var rest := p.(pos := p.pos + 1);
      && (TechnologyOf(tag).None? ==> r == Failure(BadCellInfoParcel(tag)))
      && (TechnologyOf(tag).Some? ==> r == decode(TechnologyOf(tag).value)(rest))
  {
    var read :- Lift(ReadInt(p));
    match TechnologyOf(read.0)
    case Some(t) => decode(t)(read.1)
    case None => Failure(BadCellInfoParcel(read.0))
  }

  /** What every variant's body decoder reads first: the shared fields, tagged with the variant. */
  datatype Decoded = Decoded(technology: Technology, base: CellInfo)

  function BaseBodyDecoder(t: Technology): Parcel -> Result<(Decoded, Parcel), DecodeError> {
    p =>
      var body :- ReadBody(p);
      Success((Decoded(t, body.0), body.1))
  }

  /** Reading the shared fields back after the tag recovers the record and consumes exactly its slots. */
  lemma BaseRoundTrip(dest: Parcel, c: CellInfo, tag: Int32)
    requires dest.pos == |dest.slots|
    ensures var q := WriteToParcel(dest, c, tag);
      && ReadInt(q) == Success((tag, q.(pos := q.pos + 1)))
      && ReadBody(q.(pos := q.pos + 1)) == Success((c, q.(pos := |q.slots|)))
  {
    var q := WriteToParcel(dest, c, tag);
    assert q.Unread() == BaseSlots(c, tag);
    var after := q.(pos := q.pos + 1);
    assert after.Unread() == BaseSlots(c, tag)[1..];
    var r := ReadBody(after);
    assert r.Success?;
    assert r.value.0 == c;
    assert r.value.1 == q.(pos := |q.slots|);
  }

  /**
   * A record written with its variant's tag is dispatched back to that
   * variant, and the shared fields come back unchanged.
   */
  lemma DispatchRoundTrip(dest: Parcel, c: CellInfo, t: Technology)
    requires dest.pos == |dest.slots|
    ensures var q := WriteToParcel(dest, c, TypeTag(t));
      CreateFromParcel(q, BaseBodyDecoder) == Success((Decoded(t, c), q.(pos := |q.slots|)))
  {
    var q := WriteToParcel(dest, c, TypeTag(t));
    BaseRoundTrip(dest, c, TypeTag(t));
    assert q.Unread()[0] == IntSlot(TypeTag(t));
    DispatchToBase(q, c, t, q.(pos := |q.slots|));
  }

  lemma DispatchToBase(q: Parcel, c: CellInfo, t: Technology, done: Parcel)
    requires |q.Unread()| > 0 && q.Unread()[0] == IntSlot(TypeTag(t))
    requires ReadBody(q.(pos := q.pos + 1)) == Success((c, done))
    ensures CreateFromParcel(q, BaseBodyDecoder) == Success((Decoded(t, c), done))
  {
    assert TechnologyOf(TypeTag(t)) == Some(t);
  }

  /** A record written with a tag no variant owns is refused, whatever the decoders. */
  lemma BadTagRefused<T>(dest: Parcel, c: CellInfo, tag: Int32, decode: BodyDecoder<T>)
    requires dest.pos == |dest.slots|
    requires tag < TYPE_GSM || tag > TYPE_TDSCDMA
    ensures CreateFromParcel(WriteToParcel(dest, c, tag), decode) == Failure(BadCellInfoParcel(tag))
  {
    assert WriteToParcel(dest, c, tag).Unread()[0] == IntSlot(tag);
  }

  /**
   * The parcel constructor does not normalize: a time-stamp type outside the
   * recognized values survives a round trip through a parcel, unlike a pass
   * through `SetTimeStampType`.
   */
  lemma ParcelKeepsRawTimeStampType(c: CellInfo, t: Technology)
    requires !ValidTimeStampType(c.timeStampType)
    ensures var q := WriteToParcel(Empty, c, TypeTag(t));
      && CreateFromParcel(q, BaseBodyDecoder).Success?
      && !ValidTimeStampType(CreateFromParcel(q, BaseBodyDecoder).value.0.base.timeStampType)
      && SetTimeStampType(c, c.timeStampType).timeStampType == TIMESTAMP_TYPE_UNKNOWN
  {
    DispatchRoundTrip(Empty, c, t);
  }
}
