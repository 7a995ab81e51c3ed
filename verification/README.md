# CellInfo value core in Dafny

A model of `android.telephony.CellInfo`, the abstract base of every
point-in-time radio-cell observation (GSM, CDMA, LTE, WCDMA, TD-SCDMA). The
base owns four fields: `registered`, `timeStamp` (nanoseconds since boot),
`timeStampType` (who stamped it) and `cellConnectionStatus` (serving role).
The model covers:

- the default and copy constructors and the four setters, including the
  normalizing `setTimeStampType`;
- `equals` and the Java `hashCode` formula, with Java's wrapping `int`
  arithmetic, truncating `long` division and narrowing `(int)` cast;
- `toString` with its fixed time-stamp-type name table;
- the shared parcel prefix written by `writeToParcel(dest, flags, type)`;
- the `CellInfo(Parcel)` body reader;
- the tag dispatcher `CREATOR.createFromParcel`.

Files, one module each:

| file | module | contents |
|---|---|---|
| `wrappers.dfy` | `Wrappers` | `Option` (null) and `Result` (decoding failures) |
| `java_int.dfy` | `JavaInt` | `int`/`long` ranges, `Wrap32`, `Add32`, `Mul32`, `TruncDiv`, congruence modulo 2^32 |
| `decimal.dfy` | `Decimal` | Java's decimal rendering of `int`/`long`, and a reader for it |
| `parcel.dfy` | `Parcel` | a parcel as a sequence of 32-bit and 64-bit slots with a read cursor |
| `cell_info.dfy` | `CellState` | the record, constructors, setters, `Equals`, `HashCode` |
| `cell_text.dfy` | `CellText` | `ToString` and `ParseRendering`, the reader that inverts it |
| `cell_wire.dfy` | `CellWire` | variant tags, `WriteToParcel`, `ReadBody`, `CreateFromParcel` |

Setters are pure functions returning the updated record. A Java `null`
argument of `equals` is `None`. Each variant's body decoder is a function
parameter of the dispatcher. `BaseBodyDecoder` stands for the part every
variant shares: it reads the four base fields and tags the result with the
technology.

Behaviour of the code worth noting:

- The time-stamp type is normalized only by `setTimeStampType`. The parcel
  constructor stores the raw `int` it reads
  (`CellWire.ParcelKeepsRawTimeStampType`).
- The time stamp is a signed Java `long`.
- The hash works on the time stamp divided by 1000 with truncation toward
  zero, then cast to `int`. Modulo 2^32 the cast has no effect, so
  `HashCode` equals `Wrap32(31 * (R + ts/1000 + type + status))`. Here `R` is
  0 when registered and 1 otherwise.
- `equals` on the base compares only the four base fields. It ignores the
  variant and its identity and signal-strength objects.

## Model

| member | source | states |
|---|---|---|
| CellState.Default | telephony/java/android/telephony/CellInfo.java:109-126 | a new record is unregistered, has time stamp `Long.MAX_VALUE`, type UNKNOWN (0) and status NONE (0) |
| CellState.Copy | telephony/java/android/telephony/CellInfo.java:129-134 | the copy equals its source both ways and has the same hash |
| CellState.SetRegistered | telephony/java/android/telephony/CellInfo.java:137-143 | the getter then returns the new flag; the other three fields are unchanged |
| CellState.SetTimeStamp | telephony/java/android/telephony/CellInfo.java:146-152 | the getter then returns the new time stamp; the other three fields are unchanged |
| CellState.SetCellConnectionStatus | telephony/java/android/telephony/CellInfo.java:173-179 | the getter then returns the new status, any `int` accepted; the other three fields are unchanged |
| CellState.SetTimeStampType | telephony/java/android/telephony/CellInfo.java:192-198 | the stored type is always in 0..4; it is the argument when that is in 0..4 and UNKNOWN otherwise; the other fields are unchanged |
| CellState.SetTimeStampTypeIdempotent | telephony/java/android/telephony/CellInfo.java:192-198 | normalizing twice equals normalizing once, and an already normalized type is a fixed point |
| CellState.SettersKeepValidTimeStampType | telephony/java/android/telephony/CellInfo.java:122-198 | the default constructor, the copy constructor and every setter keep the time-stamp type in 0..4 |
| CellState.SettersCommute | telephony/java/android/telephony/CellInfo.java:141-198 | setters of different fields can be applied in either order with the same result |
| CellState.Equals | telephony/java/android/telephony/CellInfo.java:208-224 | false for null; otherwise true exactly when the other record has the same four fields |
| CellState.EqualsIsEquivalence | telephony/java/android/telephony/CellInfo.java:208-224 | `equals` is false for null and is reflexive, symmetric and transitive |
| CellState.HashCode | telephony/java/android/telephony/CellInfo.java:200-205 | the wrapping step-by-step Java evaluation equals 31 times the exact sum of the four contributions, reduced to 32 bits |
| CellState.EqualsImpliesEqualHash | telephony/java/android/telephony/CellInfo.java:201-224 | records that are equal have equal hashes |
| CellState.HashTruncatesTowardZero | telephony/java/android/telephony/CellInfo.java:203 | the hash sees the time stamp at microsecond resolution and rounds toward zero: -999 ns and 999 ns hash alike |
| CellState.DefaultHash | telephony/java/android/telephony/CellInfo.java:122-126 | a default-constructed record hashes to 377957128 |
| JavaInt.Wrap32 | telephony/java/android/telephony/CellInfo.java:203 | the `(int)` cast: the result is a Java `int` with the same low 32 bits as its argument, and an argument already in `int` range is unchanged |
| JavaInt.Add32 | telephony/java/android/telephony/CellInfo.java:203-204 | Java `int` addition: the result is an `int` agreeing with the exact sum in its low 32 bits |
| JavaInt.Mul32 | telephony/java/android/telephony/CellInfo.java:203-204 | Java `int` multiplication: the result is an `int` agreeing with the exact product in its low 32 bits |
| Decimal.ToDecimal | telephony/java/android/telephony/CellInfo.java:249-250 | appending a `long` or `int`: a leading minus exactly for negative numbers, then digits denoting the absolute value, without leading zero and never "-0" |
| JavaInt.TruncDiv | telephony/java/android/telephony/CellInfo.java:203 | Java `long` division: the remainder is smaller than the divisor and has the sign of the dividend |
| CellText.TimeStampTypeToString | telephony/java/android/telephony/CellInfo.java:226-239 | the name is "unknown" exactly for types outside 1..4; on 0..4 the name table can be inverted |
| CellText.ToString | telephony/java/android/telephony/CellInfo.java:241-253 | reading the rendering back recovers the YES/NO flag, the type name, the time stamp and the status |
| CellText.ToStringInjective | telephony/java/android/telephony/CellInfo.java:241-253 | two records with time-stamp types in 0..4 and the same rendering are the same record |
| CellText.UnknownTypesRenderAlike | telephony/java/android/telephony/CellInfo.java:236-247 | every unrecognized time-stamp type renders like UNKNOWN |
| CellText.DefaultRendering | telephony/java/android/telephony/CellInfo.java:241-253 | a default record renders as NO, "unknown", `Long.MAX_VALUE` ns and status 0 |
| Decimal.ParseToDecimal | telephony/java/android/telephony/CellInfo.java:249-250 | the decimal rendering of a `long` or `int` can be read back to the same number when followed by non-digit text |
| CellWire.TechnologyOf | telephony/java/android/telephony/CellInfo.java:43-68 | exactly the tags 1..5 name a technology, and the tag of that technology is the tag read |
| CellWire.WriteToParcel | telephony/java/android/telephony/CellInfo.java:272-278 | appends exactly five slots: the tag, 1 or 0 for the flag, the type, the 64-bit time stamp, the status |
| CellWire.ReadBody | telephony/java/android/telephony/CellInfo.java:285-290 | reads four slots when they have the right widths; the flag is true exactly for 1; the other fields are copied raw |
| CellWire.BaseRoundTrip | telephony/java/android/telephony/CellInfo.java:272-290 | after the tag, reading the written prefix back yields the original record and consumes exactly its slots |
| CellWire.CreateFromParcel | telephony/java/android/telephony/CellInfo.java:295-305 | a tag in 1..5 hands the rest of the parcel to that technology's decoder; any other tag fails with "Bad CellInfo Parcel" |
| CellWire.DispatchRoundTrip | telephony/java/android/telephony/CellInfo.java:272-305 | a record written with its variant's tag is decoded as that variant with the same base fields |
| CellWire.BadTagRefused | telephony/java/android/telephony/CellInfo.java:296-303 | a record written with tag 0, a negative tag or a tag above 5 is refused whatever the decoders do |
| CellWire.ParcelKeepsRawTimeStampType | telephony/java/android/telephony/CellInfo.java:285-290 | an out-of-range time-stamp type survives a parcel round trip unnormalized, while the setter would reset it |

## Left out

- `describeContents`, `CREATOR.newArray` and the unused `flags` argument are framework plumbing with no effect on values.
- The concrete variants and their `createFromParcelBody` are not part of this model. The dispatcher takes the body decoders as a parameter.
- `getCellIdentity`, `getCellSignalStrength` and the variants' equality, hash and rendering overrides are not part of this model. Their types are not part of this model either.
- The `this == other` shortcut of `equals` is not modelled separately. Records are values here, and identical records already have equal fields.
- The `ClassCastException` path of `equals` cannot arise: the argument is typed as an optional record.
- The `Parcel` class is not part of this model. It is modelled as typed slots, not bytes. Reading past the end or reading a slot of the other width is a `ParcelFault` failure. A native parcel instead returns 0 or reinterprets the bytes.
- `StringBuffer` is modelled as plain string concatenation.
- The `@IntDef` and `@Retention` annotations have no run-time effect.
- CellText.DefaultRendering: states what the default rendering shows through the reader. It does not state the literal string `"mRegistered=NO mTimeStampType=unknown mTimeStamp=9223372036854775807ns mCellConnectionStatus=0"`, because comparing that literal is too costly for the verifier.
