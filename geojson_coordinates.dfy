/**
 * The serializer of 3D geographic GeoJSON coordinates: a position is the
 * BSON array [longitude, latitude, altitude] of three doubles, and a BSON
 * null reads as no position at all.
 */
module GeoJsonCoordinates {
  import opened Wrappers
  import opened Bson
  import opened BsonLemmas
  import opened BsonIO

  /** A GeoJson3DGeographicCoordinates value. */
  datatype Coordinates = Coordinates(longitude: Float64, latitude: Float64, altitude: Float64)

  /** The tokens SerializeValue writes for `c`. */
  function CoordinateTokens(c: Coordinates): (ts: seq<Token>)
    ensures |ts| == 5 && ts[0] == StartArray && ts[4] == EndArray
  {
    [StartArray, Value(DoubleValue(c.longitude)), Value(DoubleValue(c.latitude)),
     Value(DoubleValue(c.altitude)), EndArray]
  }

  /** The coordinates as a BSON value: an array of three doubles, in this order. */
  function AsBsonValue(c: Coordinates): BsonValue {
    BsonArray([Leaf(DoubleValue(c.longitude)), Leaf(DoubleValue(c.latitude)), Leaf(DoubleValue(c.altitude))])
  }

  /**
   * What Deserialize does from position p: None for a null (one token
   * consumed), the coordinates of a three-double array (five tokens
   * consumed), or the exception the first failing read raises.
   */
  function DeserializeAt(ts: seq<Token>, p: nat): (r: Result<(Option<Coordinates>, nat), BsonError>)
    ensures r.Success? ==> r.value.1 == p + if r.value.0.None? then 1 else 5
    ensures (r.Success? && r.value.0.None?) <==> p < |ts| && ts[p] == Value(NullValue)
  {
    var t :- TypeAt(ts, p);
    if t == Null then
      var q :- ExpectAt(ts, p, Value(NullValue), "ReadNull");
      Success((None, q))
    else
      var p1 :- ExpectAt(ts, p, StartArray, "ReadStartArray");
      var longitude :- ReadDoubleAt(ts, p1);
      var latitude :- ReadDoubleAt(ts, longitude.1);
      var altitude :- ReadDoubleAt(ts, latitude.1);
      var q :- ExpectAt(ts, altitude.1, EndArray, "ReadEndArray");
      Success((Some(Coordinates(longitude.0, latitude.0, altitude.0)), q))
  }

  /** Reads a position, or None for a BSON null. */
  method Deserialize(reader: BsonReader) returns (r: Result<Option<Coordinates>, BsonError>)
    modifies reader
    ensures Delivered(r, DeserializeAt(reader.tokens, old(reader.pos)), reader.pos)
  {
    var t :- reader.GetCurrentBsonType();
    if t == Null {
      :- reader.ReadNull();
      return Success(None);
    }
    :- reader.ReadStartArray();
    var longitude :- reader.ReadDouble();
    var latitude :- reader.ReadDouble();
    var altitude :- reader.ReadDouble();
    :- reader.ReadEndArray();
    return Success(Some(Coordinates(longitude, latitude, altitude)));
  }

  /** Writes a (non-null) position as an array of its three components. */
  method SerializeValue(writer: BsonWriter, c: Coordinates)
    modifies writer
    ensures writer.tokens == old(writer.tokens) + CoordinateTokens(c)
  {
    writer.WriteStartArray();
    writer.WriteDouble(c.longitude);
    writer.WriteDouble(c.latitude);
    writer.WriteDouble(c.altitude);
    writer.WriteEndArray();
  }
}

/** Properties of the coordinates codec. */
module GeoJsonCoordinatesLemmas {
  import opened Wrappers
  import opened Bson
  import opened BsonLemmas
  import opened GeoJsonCoordinates

  /** What SerializeValue writes is the BSON array of longitude, latitude and altitude, in that order. */
  lemma {:induction false} WritesThreeDoubleArray(c: Coordinates)
    ensures CoordinateTokens(c) == ValueTokens(AsBsonValue(c))
  {
    var lon, lat, alt := Leaf(DoubleValue(c.longitude)), Leaf(DoubleValue(c.latitude)), Leaf(DoubleValue(c.altitude));
    assert [alt][1..] == [];
    assert ItemsTokens([alt]) == ValueTokens(alt) + ItemsTokens([]);
    assert [lat, alt][1..] == [alt];
    assert ItemsTokens([lat, alt]) == ValueTokens(lat) + ItemsTokens([alt]);
    assert [lon, lat, alt][1..] == [lat, alt];
    assert ItemsTokens([lon, lat, alt]) == ValueTokens(lon) + ItemsTokens([lat, alt]);
  }

  /**
   * Deserialize gives coordinates exactly where the stream holds StartArray,
   * three doubles and EndArray; longitude, latitude and altitude are the
   * first, second and third elements, and the cursor ends after the array.
   */
  lemma {:induction false} CoordinatesExactlyAtArray(ts: seq<Token>, p: nat, c: Coordinates)
    ensures DeserializeAt(ts, p) == Success((Some(c), p + 5)) <==> At(ts, p, CoordinateTokens(c))
  {
    var w := CoordinateTokens(c);
    if At(ts, p, w) {
      assert ts[p] == w[0] && ts[p + 1] == w[1] && ts[p + 2] == w[2];
      assert ts[p + 3] == w[3] && ts[p + 4] == w[4];
    }
    if DeserializeAt(ts, p) == Success((Some(c), p + 5)) {
      assert ts[p..p + 5] == w;
    }
  }

  /** Round trip: what SerializeValue appended reads back as the same coordinates, and all of it is consumed. */
  lemma {:induction false} RoundTrip(before: seq<Token>, c: Coordinates, after: seq<Token>)
    ensures DeserializeAt(before + CoordinateTokens(c) + after, |before|) ==
      Success((Some(c), |before| + |CoordinateTokens(c)|))
  {
    var ts := before + CoordinateTokens(c) + after;
    assert ts[|before|..|before| + 5] == CoordinateTokens(c);
    CoordinatesExactlyAtArray(ts, |before|, c);
  }

  /** An array with a fourth element is refused where ReadEndArray meets that element. */
  lemma {:induction false} RejectsFourthElement(ts: seq<Token>, p: nat, x: Float64, y: Float64, z: Float64, extra: BsonValue)
    requires At(ts, p, [StartArray, Value(DoubleValue(x)), Value(DoubleValue(y)), Value(DoubleValue(z))] + ValueTokens(extra))
    ensures DeserializeAt(ts, p) == Failure(InvalidOperation("ReadEndArray", p + 4))
  {
    var head := [StartArray, Value(DoubleValue(x)), Value(DoubleValue(y)), Value(DoubleValue(z))];
    AtSplit(ts, p, head, ValueTokens(extra));
    assert ts[p] == head[0] && ts[p + 1] == head[1] && ts[p + 2] == head[2] && ts[p + 3] == head[3];
    AtHead(ts, p + 4, ValueTokens(extra));
  }

  /** An array that ends after two elements is refused where the third double should be. */
  lemma {:induction false} RejectsTwoElements(ts: seq<Token>, p: nat, x: Float64, y: Float64)
    requires At(ts, p, [StartArray, Value(DoubleValue(x)), Value(DoubleValue(y)), EndArray])
    ensures DeserializeAt(ts, p) == Failure(InvalidOperation("ReadDouble", p + 3))
  {
    var w := [StartArray, Value(DoubleValue(x)), Value(DoubleValue(y)), EndArray];
    assert ts[p] == w[0] && ts[p + 1] == w[1] && ts[p + 2] == w[2] && ts[p + 3] == w[3];
  }

  /** Anything but a null or an array (a document, a string, ...) is refused by ReadStartArray, without reading on. */
  lemma {:induction false} RejectsOtherValues(ts: seq<Token>, p: nat, v: BsonValue)
    requires At(ts, p, ValueTokens(v)) && v != Leaf(NullValue) && !v.BsonArray?
    ensures DeserializeAt(ts, p) == Failure(InvalidOperation("ReadStartArray", p))
  {
    AtHead(ts, p, ValueTokens(v));
  }
}
