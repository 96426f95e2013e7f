/**
 * `basic_json_output_handler` of jsoncons/json_output_handler.hpp: every
 * public method, the deprecated `name`/`value` overloads included, makes
 * exactly one call of a private `do_*` hook, passing its payload on
 * unchanged (or, for `double_value`, with the missing precision and
 * decimal-places arguments defaulted to 0). `Call` lists the public
 * methods, `Event` the hooks, and `Forward` is the mapping.
 *
 * A concrete handler is what its `do_*` overrides do with the events. A
 * `Sink` stands for one: `Recording` keeps every event it is given,
 * `Null` is `basic_null_json_output_handler`, whose overrides are all empty.
 */
module OutputHandler {
  import opened Numerics
  import opened CStrings

  /** A `double` is passed through untouched; only its bits matter here. */
  datatype Double = Double(bits: bv64)

  /** The private hooks `do_*`, with the arguments they receive. */
  datatype Event =
    | DoBeginJson
    | DoEndJson
    | DoBeginObject
    | DoEndObject
    | DoBeginArray
    | DoEndArray
    | DoName(name: string)
    | DoStringValue(value: string)
    | DoByteStringValue(bytes: seq<uint8>)
    | DoIntegerValue(i64: int64)
    | DoUIntegerValue(u64: uint64)
    | DoDoubleValue(double: Double, precision: uint8, decimalPlaces: uint8)
    | DoBoolValue(flag: bool)
    | DoNullValue

  /**
   * The public methods. A `(pointer, length)` argument is the character or
   * byte array the pointer addresses together with the length; a bare
   * `const CharT*` is the array holding a NUL-terminated string.
   */
  datatype Call =
    | BeginJson
    | EndJson
    | BeginObject
    | EndObject
    | BeginArray
    | EndArray
    | Name(name: string)
    | StringValue(value: string)
    | ByteStringValue(data: seq<uint8>, length: nat)
    | IntegerValue(i64: int64)
    | UIntegerValue(u64: uint64)
    | DoubleValue(double: Double)
    | DoubleValueWithPrecision(double: Double, precision: uint8)
    | DoubleValueWithFormat(double: Double, precision: uint8, decimalPlaces: uint8)
    | BoolValue(flag: bool)
    | NullValue
    // the deprecated overloads
    | NameChars(chars: seq<char>, length: nat)
    | ValueString(value: string)
    | ValueChars(chars: seq<char>, length: nat)
    | ValueCString(chars: seq<char>)
    | ValueInt(i32: int32)
    | ValueLong(i64: int64)
    | ValueLongLong(i64: int64)
    | ValueUnsignedInt(u32: uint32)
    | ValueUnsignedLong(u64: uint64)
    | ValueUnsignedLongLong(u64: uint64)
    | ValueDouble(double: Double, precision: uint8 := 0, decimalPlaces: uint8 := 0)
    | ValueBool(flag: bool)
    | ValueNull

  /** What the caller must supply: a length within its array, a NUL in a C string. */
  predicate WellFormed(c: Call) {
    match c
    case ByteStringValue(data, length) => length <= |data|
    case NameChars(chars, length) => length <= |chars|
    case ValueChars(chars, length) => length <= |chars|
    case ValueCString(chars) => '\0' in chars
    case _ => true
  }

  /** The single `do_*` call each public method makes. */
  function Forward(c: Call): (e: Event)
    requires WellFormed(c)
    ensures AsCall(e) == Canonical(c)
  {
    match c
    case BeginJson => DoBeginJson
    case EndJson => DoEndJson
    case BeginObject => DoBeginObject
    case EndObject => DoEndObject
    case BeginArray => DoBeginArray
    case EndArray => DoEndArray
    case Name(name) => DoName(name)
    case StringValue(value) => DoStringValue(value)
    case ByteStringValue(data, length) => DoByteStringValue(data[..length])
    case IntegerValue(v) => DoIntegerValue(v)
    case UIntegerValue(v) => DoUIntegerValue(v)
    case DoubleValue(v) => DoDoubleValue(v, 0, 0)
    case DoubleValueWithPrecision(v, precision) => DoDoubleValue(v, precision, 0)
    case DoubleValueWithFormat(v, precision, places) => DoDoubleValue(v, precision, places)
    case BoolValue(b) => DoBoolValue(b)
    case NullValue => DoNullValue
    case NameChars(chars, length) => DoName(chars[..length])
    case ValueString(value) => DoStringValue(value)
    case ValueChars(chars, length) => DoStringValue(chars[..length])
    case ValueCString(chars) => DoStringValue(BeforeNul(chars))
    case ValueInt(v) => DoIntegerValue(v)
    case ValueLong(v) => DoIntegerValue(v)
    case ValueLongLong(v) => DoIntegerValue(v)
    case ValueUnsignedInt(v) => DoUIntegerValue(v)
    case ValueUnsignedLong(v) => DoUIntegerValue(v)
    case ValueUnsignedLongLong(v) => DoUIntegerValue(v)
    case ValueDouble(v, precision, places) => DoDoubleValue(v, precision, places)
    case ValueBool(b) => DoBoolValue(b)
    case ValueNull => DoNullValue
  }

  // ---------------------------------------------------------------------
  // An independent reading: each overload as the canonical public method it stands for

  /**
   * The calls that are neither deprecated nor shorthand: the event-named
   * methods, `double_value` with all three arguments, and byte strings
   * whose array is exactly `length` long.
   */
  predicate IsCanonical(c: Call) {
    match c
    case DoubleValue(_) => false
    case DoubleValueWithPrecision(_, _) => false
    case ByteStringValue(data, length) => length == |data|
    case NameChars(_, _) => false
    case ValueString(_) => false
    case ValueChars(_, _) => false
    case ValueCString(_) => false
    case ValueInt(_) => false
    case ValueLong(_) => false
    case ValueLongLong(_) => false
    case ValueUnsignedInt(_) => false
    case ValueUnsignedLong(_) => false
    case ValueUnsignedLongLong(_) => false
    case ValueDouble(_, _, _) => false
    case ValueBool(_) => false
    case ValueNull => false
    case _ => true
  }

  /**
   * The canonical call a call stands for, read from the overload set: a
   * deprecated `value`/`name` overload is the typed method of the same
   * payload kind, a missing `double_value` argument is 0, and a
   * `(pointer, length)` pair is the characters it spans.
   */
  function Canonical(c: Call): (k: Call)
    requires WellFormed(c)
    ensures IsCanonical(k)
  {
    match c
    case ByteStringValue(data, length) => ByteStringValue(data[..length], length)
    case DoubleValue(v) => DoubleValueWithFormat(v, 0, 0)
    case DoubleValueWithPrecision(v, precision) => DoubleValueWithFormat(v, precision, 0)
    case NameChars(chars, length) => Name(chars[..length])
    case ValueString(value) => StringValue(value)
    case ValueChars(chars, length) => StringValue(chars[..length])
    case ValueCString(chars) => StringValue(BeforeNul(chars))
    case ValueInt(v) => IntegerValue(v)
    case ValueLong(v) => IntegerValue(v)
    case ValueLongLong(v) => IntegerValue(v)
    case ValueUnsignedInt(v) => UIntegerValue(v)
    case ValueUnsignedLong(v) => UIntegerValue(v)
    case ValueUnsignedLongLong(v) => UIntegerValue(v)
    case ValueDouble(v, precision, places) => DoubleValueWithFormat(v, precision, places)
    case ValueBool(b) => BoolValue(b)
    case ValueNull => NullValue
    case _ => c
  }

  /** The canonical public method that produces an event. */
  function AsCall(e: Event): (c: Call)
    ensures IsCanonical(c)
  {
    match e
    case DoBeginJson => BeginJson
    case DoEndJson => EndJson
    case DoBeginObject => BeginObject
    case DoEndObject => EndObject
    case DoBeginArray => BeginArray
    case DoEndArray => EndArray
    case DoName(name) => Name(name)
    case DoStringValue(value) => StringValue(value)
    case DoByteStringValue(bytes) => ByteStringValue(bytes, |bytes|)
    case DoIntegerValue(v) => IntegerValue(v)
    case DoUIntegerValue(v) => UIntegerValue(v)
    case DoDoubleValue(v, precision, places) => DoubleValueWithFormat(v, precision, places)
    case DoBoolValue(b) => BoolValue(b)
    case DoNullValue => NullValue
  }

  /**
   * Every call forwards the event of the canonical call it stands for:
   * the deprecated overloads and the shorter `double_value` forms are
   * shims with no behaviour of their own.
   */
  lemma ForwardAgreesWithCanonical(c: Call)
    requires WellFormed(c)
    ensures WellFormed(Canonical(c))
    ensures Forward(Canonical(c)) == Forward(c)
    ensures AsCall(Forward(c)) == Canonical(c)
  {
    if c.ByteStringValue? {
      assert c.data[..c.length][..c.length] == c.data[..c.length];
    }
  }

  /** Each event comes from exactly one canonical call: `Forward` and `AsCall` are inverse. */
  lemma EventsMatchCanonicalCalls(e: Event, c: Call)
    ensures WellFormed(AsCall(e)) && Forward(AsCall(e)) == e
    ensures IsCanonical(c) ==> WellFormed(c) && AsCall(Forward(c)) == c
  {
    if e.DoByteStringValue? {
      assert e.bytes[..|e.bytes|] == e.bytes;
    }
    if c.ByteStringValue? && IsCanonical(c) {
      assert c.data[..c.length] == c.data;
    }
  }

  /** Two calls make the same `do_*` call exactly when they stand for the same canonical call. */
  lemma SameEventIffSameCanonical(c1: Call, c2: Call)
    requires WellFormed(c1) && WellFormed(c2)
    ensures Forward(c1) == Forward(c2) <==> Canonical(c1) == Canonical(c2)
  {
    ForwardAgreesWithCanonical(c1);
    ForwardAgreesWithCanonical(c2);
  }

  /** `double_value(v)` sends `(v, 0, 0)`, `double_value(v, p)` sends `(v, p, 0)`, and so does the deprecated `value(v, ...)` with its defaults. */
  lemma DoubleDefaults(v: Double, precision: uint8)
    ensures Forward(DoubleValue(v)) == DoDoubleValue(v, 0, 0)
    ensures Forward(DoubleValueWithPrecision(v, precision)) == DoDoubleValue(v, precision, 0)
    ensures Forward(ValueDouble(v)) == Forward(DoubleValue(v))
    ensures Forward(ValueDouble(v, precision)) == Forward(DoubleValueWithPrecision(v, precision))
  {
  }

  // ---------------------------------------------------------------------
  // Handlers

  /**
   * A concrete handler: `Recording` stands for any handler whose `do_*`
   * overrides act on what they receive and keeps that stream of events;
   * `Null` is `basic_null_json_output_handler`.
   */
  datatype Sink = Recording(events: seq<Event>) | Null

  /** The `do_*` override taking one event. */
  function Receive(s: Sink, e: Event): (r: Sink)
    ensures r.Null? <==> s.Null?
    ensures s.Recording? ==> |r.events| == |s.events| + 1 && r.events[..|s.events|] == s.events && r.events[|s.events|] == e
  {
    match s
    case Recording(events) => Recording(events + [e])
    case Null => Null
  }

  predicate AllWellFormed(cs: seq<Call>) {
    forall i :: 0 <= i < |cs| ==> WellFormed(cs[i])
  }

  /** The public calls `cs` made in order on the handler `s`. */
  function HandleAll(s: Sink, cs: seq<Call>): (r: Sink)
    requires AllWellFormed(cs)
    ensures r.Null? <==> s.Null?
    ensures s.Recording? ==> |r.events| == |s.events| + |cs|
    decreases |cs|
  {
    if cs == [] then s else HandleAll(Receive(s, Forward(cs[0])), cs[1..])
  }

  /** The events a sequence of calls makes, one per call, in call order. */
  function ForwardAll(cs: seq<Call>): (es: seq<Event>)
    requires AllWellFormed(cs)
    ensures |es| == |cs|
    ensures forall i :: 0 <= i < |cs| ==> es[i] == Forward(cs[i])
    decreases |cs|
  {
    if cs == [] then [] else [Forward(cs[0])] + ForwardAll(cs[1..])
  }

  /** A recording handler receives exactly one event per public call, in call order. */
  lemma {:induction false} RecordingGetsEveryEvent(events: seq<Event>, cs: seq<Call>)
    requires AllWellFormed(cs)
    ensures HandleAll(Recording(events), cs) == Recording(events + ForwardAll(cs))
    decreases |cs|
  {
    if cs == [] {
      assert events + ForwardAll(cs) == events;
    } else {
      var e := Forward(cs[0]);
      var rest := ForwardAll(cs[1..]);
      RecordStep(events, cs);
      RecordingGetsEveryEvent(events + [e], cs[1..]);
      ConcatAssoc(events, [e], rest);
    }
  }

  lemma ConcatAssoc<T>(a: seq<T>, b: seq<T>, c: seq<T>)
    ensures a + b + c == a + (b + c)
  {
  }

  /** The first call of a non-empty sequence: its event is recorded, and it heads the events of the sequence. */
  lemma RecordStep(events: seq<Event>, cs: seq<Call>)
    requires AllWellFormed(cs) && cs != []
    ensures HandleAll(Recording(events), cs) == HandleAll(Recording(events + [Forward(cs[0])]), cs[1..])
    ensures ForwardAll(cs) == [Forward(cs[0])] + ForwardAll(cs[1..])
  {
  }

  /** `basic_null_json_output_handler` ignores every event: no call sequence changes it. */
  lemma {:induction false} NullIgnoresEverything(cs: seq<Call>)
    requires AllWellFormed(cs)
    ensures HandleAll(Null, cs) == Null
    decreases |cs|
  {
    if cs != [] {
      NullIgnoresEverything(cs[1..]);
    }
  }
}
