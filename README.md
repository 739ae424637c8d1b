# Discriminated wrappers and GeoJSON 3D coordinates in the MongoDB C# driver

This project models two BSON serializers of the MongoDB C# driver and proves
properties of them, in Dafny.

**`DiscriminatedWrapperSerializer<TValue>`** writes a polymorphic value as the
two-field document `{ <element name>: <discriminator>, _v: <payload> }`. It
reads such a document back under strict, order-sensitive checks:

- the actual type comes from the discriminator convention before anything is read;
- the first field must carry the convention's element name, and its value is skipped;
- the second field must be `_v`;
- the serializer looked up for the actual type reads the payload;
- the document must end right after the payload.

A wrong first or second field name, or a field after the payload, is a
`FormatException` (the first-field message includes the name found, `BsonLemmas.FirstFieldMessageShowsFound`). A stream
that breaks the structure raises the reader's own error at the read that meets
it: for example, a value that is not a document fails at `ReadStartDocument`,
and a document that ends after its first field fails at the second `ReadName`.

A probe, `IsPositionedAtDiscriminatedWrapper`, tells whether the reader is at
such a document. It takes a bookmark and runs a walk of the same structural checks, answering
`false` at the first mismatch. That walk differs from Deserialize: it resolves
no type, it asks ReadBsonType before each ReadName, and it skips the payload
instead of decoding it. A `finally` block always returns the reader to the bookmark.

**`GeoJson3DGeographicCoordinatesSerializer`** writes a position as the BSON
array `[longitude, latitude, altitude]`. It reads a BSON null as no position,
and otherwise reads exactly StartArray, three doubles and EndArray.

How the model is built:

- **Token stream.** BSON is a stream of structural tokens (`Bson.Token`):
  StartDocument, EndDocument, StartArray, EndArray, a Name, or a scalar Value.
  Array elements carry no name, just as the reader hides the `"0"`, `"1"`, …
  keys.
- **Reader and writer.** The reader (`BsonIO.BsonReader`) is a class with a
  mutable cursor over the tokens. Every read call is proved against a function
  of the tokens and the cursor; for example, `ReadBsonType` against
  `Bson.TypeAt`. The writer (`BsonIO.BsonWriter`) appends to a token sequence.
- **Serializers.** Both serializers are imperative code in the driver, so they
  are methods over the reader and the writer. Each method is proved against a
  pure function (`DeserializeAt`, `ProbeAt`, `WrapperTokens`, `CoordinateTokens`).
  The properties are proved as lemmas about those functions.
- **Collaborators.** The discriminator convention, the wrapped serializer and
  the serializer registry are parameters made of total functions:
  `DiscriminatorConvention`, `Serializer` and a `map` from type names to
  serializers. A runtime object is an `Instance(runtimeType, state)`, and its
  `runtimeType` plays the part of `GetType()`.

One detail of the source is kept as written. When the second field is not
`_v`, the message interpolates `firstElementName`
(DiscriminatedWrapperSerializer.cs line 69). At that point it always equals
the configured element name, so the message names the configured name
rather than the one actually found. `DiscriminatedWrapperLemmas.RejectsWrongSecondField` and
`DiscriminatedWrapperLemmas.WrongSecondFieldHidesFound` state this behaviour.

## Model

| member | source | states |
|---|---|---|
| `DiscriminatedWrapper.DiscriminatedWrapperSerializer.constructor` | src/MongoDB.Bson/Serialization/Serializers/DiscriminatedWrapperSerializer.cs:38-42 | the serializer keeps the convention and the wrapped serializer it is given |
| `DiscriminatedWrapper.DiscriminatedWrapperSerializer.Deserialize` | src/MongoDB.Bson/Serialization/Serializers/DiscriminatedWrapperSerializer.cs:50-85 | returns the value `DeserializeAt` gives and leaves the reader where `DeserializeAt` ends; otherwise raises the same exception |
| `DiscriminatedWrapper.DiscriminatedWrapperSerializer.IsPositionedAtDiscriminatedWrapper` | src/MongoDB.Bson/Serialization/Serializers/DiscriminatedWrapperSerializer.cs:92-114 | the reader is back at its starting position on every path, including a read error; the answer (or error) is `ProbeAt` at that position |
| `DiscriminatedWrapper.DiscriminatedWrapperSerializer.InspectShape` | src/MongoDB.Bson/Serialization/Serializers/DiscriminatedWrapperSerializer.cs:97-109 | the guarded walk: its early `false`, its `true` and its read errors are those of `ProbeAt` |
| `DiscriminatedWrapper.DiscriminatedWrapperSerializer.Serialize` | src/MongoDB.Bson/Serialization/Serializers/DiscriminatedWrapperSerializer.cs:121-134 | appends exactly `WrapperTokens`: StartDocument, the element name, the discriminator for (nominal type, runtime type), `_v`, the payload written under the runtime type, EndDocument, and nothing else |
| `DiscriminatedWrapper.WrapperTokens` | src/MongoDB.Bson/Serialization/Serializers/DiscriminatedWrapperSerializer.cs:128-133 | what Serialize writes: 4 tokens plus the discriminator's and the payload's; StartDocument, then the configured name, `_v` right after the discriminator, and EndDocument last |
| `DiscriminatedWrapper.DeserializeAt` | src/MongoDB.Bson/Serialization/Serializers/DiscriminatedWrapperSerializer.cs:54-64 | the specification of Deserialize; a success implies that the type was resolved and that the stream opened with StartDocument and the configured name |
| `DiscriminatedWrapper.DeserializeSecondFieldAt` | src/MongoDB.Bson/Serialization/Serializers/DiscriminatedWrapperSerializer.cs:66-84 | the rest of Deserialize from the second field; a success implies that the field was named `_v` and that the registry had a serializer for the actual type |
| `DiscriminatedWrapper.ProbeAt` | src/MongoDB.Bson/Serialization/Serializers/DiscriminatedWrapperSerializer.cs:99-100 | the specification of the probe; its answer true implies StartDocument followed by the configured name |
| `DiscriminatedWrapper.ProbeFirstFieldAt` | src/MongoDB.Bson/Serialization/Serializers/DiscriminatedWrapperSerializer.cs:101-103 | the probe past StartDocument; its answer true implies the configured name comes next |
| `DiscriminatedWrapper.ProbeSecondFieldAt` | src/MongoDB.Bson/Serialization/Serializers/DiscriminatedWrapperSerializer.cs:104-108 | the probe from the second field on; its answer true implies the field is named `_v` |
| `DiscriminatedWrapperLemmas.WrapperLayout` | src/MongoDB.Bson/Serialization/Serializers/DiscriminatedWrapperSerializer.cs:128-133 | a written wrapper has 4 tokens plus the discriminator's and the payload's; the head comes first and EndDocument comes last |
| `DiscriminatedWrapperLemmas.ResolutionComesFirst` | src/MongoDB.Bson/Serialization/Serializers/DiscriminatedWrapperSerializer.cs:54-56 | when the convention cannot resolve the actual type, Deserialize raises that error, whatever the stream holds |
| `DiscriminatedWrapperLemmas.RejectsWrongFirstField` | src/MongoDB.Bson/Serialization/Serializers/DiscriminatedWrapperSerializer.cs:58-63 | a first field with any other name is a FormatException naming the expected and the found name |
| `DiscriminatedWrapperLemmas.WrapperHeadAt` | src/MongoDB.Bson/Serialization/Serializers/DiscriminatedWrapperSerializer.cs:56-66 | over a wrapper head, ReadStartDocument, ReadName, SkipValue and the second ReadName each succeed, with the first name, the end of the discriminator and the second name |
| `DiscriminatedWrapperLemmas.DeserializePastFirstField` | src/MongoDB.Bson/Serialization/Serializers/DiscriminatedWrapperSerializer.cs:56-66 | once the first field is named as configured, decoding goes on at the second field, just past the discriminator's value |
| `DiscriminatedWrapperLemmas.RejectsWrongSecondField` | src/MongoDB.Bson/Serialization/Serializers/DiscriminatedWrapperSerializer.cs:66-71 | a second field not named `_v` is a FormatException whose message carries the configured first name |
| `Bson.FormatReason.Message` | src/MongoDB.Bson/Serialization/Serializers/DiscriminatedWrapperSerializer.cs:61-78 | the exception text of each refusal (lines 61, 69 and 78): the first-field message quotes the expected name after its fixed lead and the found name just before its close; the second-field message quotes the name it reports; the two-field message quotes the configured element name before `' and '_v'.` |
| `BsonLemmas.FirstFieldMessageShowsFound` | src/MongoDB.Bson/Serialization/Serializers/DiscriminatedWrapperSerializer.cs:61 | for one expected name, two first-field messages are equal exactly when the names found are, so the message tells which name was found |
| `BsonLemmas.SecondFieldMessageShowsReported` | src/MongoDB.Bson/Serialization/Serializers/DiscriminatedWrapperSerializer.cs:69 | two second-field messages are equal exactly when the names they report are |
| `DiscriminatedWrapperLemmas.WrongSecondFieldHidesFound` | src/MongoDB.Bson/Serialization/Serializers/DiscriminatedWrapperSerializer.cs:66-71 | when the second field has a name other than `_v` and other than the configured one, Deserialize's message is the one naming the configured name and not the one naming the name found |
| `DiscriminatedWrapperLemmas.RejectsMissingSecondField` | src/MongoDB.Bson/Serialization/Serializers/DiscriminatedWrapperSerializer.cs:64-66 | a wrapper that ends after its first field is no FormatException: the second ReadName fails at the EndDocument with an invalid operation |
| `DiscriminatedWrapperLemmas.RejectsThirdField` | src/MongoDB.Bson/Serialization/Serializers/DiscriminatedWrapperSerializer.cs:76-80 | a field after the payload is the "exactly two fields" FormatException |
| `DiscriminatedWrapperLemmas.AcceptsPayload` | src/MongoDB.Bson/Serialization/Serializers/DiscriminatedWrapperSerializer.cs:66-84 | at `_v`, when the registry's serializer for the actual type reads a value that is followed by EndDocument, the result is that value, just past the EndDocument |
| `DiscriminatedWrapperLemmas.DecodedShape` | src/MongoDB.Bson/Serialization/Serializers/DiscriminatedWrapperSerializer.cs:50-85 | a successful decode implies: the type was resolved; the document opened with the configured name; the discriminator's value was skipped; `_v` came next; the payload was read by the registry's serializer for that type under that type; EndDocument closed it |
| `DiscriminatedWrapperLemmas.RoundTrip` | src/MongoDB.Bson/Serialization/Serializers/DiscriminatedWrapperSerializer.cs:50-85 | Deserialize reads back the value Serialize wrote and stops right after it, given that the convention resolves the runtime type and the registry's serializer reads its payload back |
| `DiscriminatedWrapperLemmas.TypeAtElement` | src/MongoDB.Bson/Serialization/Serializers/DiscriminatedWrapperSerializer.cs:101 | at an element's name, ReadBsonType reports the type of the value that follows (the type its first token begins), never EndOfDocument |
| `DiscriminatedWrapperLemmas.DocumentEndAt` | src/MongoDB.Bson/Serialization/Serializers/DiscriminatedWrapperSerializer.cs:101-107 | inside a document, ReadBsonType reports EndOfDocument exactly when no element is left |
| `DiscriminatedWrapperLemmas.SkipStartsAtValue` | src/MongoDB.Bson/Serialization/Serializers/DiscriminatedWrapperSerializer.cs:103 | SkipValue succeeds only where a value begins |
| `DiscriminatedWrapperLemmas.ProbeOnValue` | src/MongoDB.Bson/Serialization/Serializers/DiscriminatedWrapperSerializer.cs:99-108 | on any well-formed value the probe raises nothing; it answers true exactly for a document of two fields, the configured name then `_v`. So a non-document, an empty or one-field document, a third field or a wrong name all give false |
| `DiscriminatedWrapperLemmas.ProbeFirstElement` | src/MongoDB.Bson/Serialization/Serializers/DiscriminatedWrapperSerializer.cs:99-108 | the same, for a non-empty document given by its elements |
| `DiscriminatedWrapperLemmas.ProbeFirstField` | src/MongoDB.Bson/Serialization/Serializers/DiscriminatedWrapperSerializer.cs:101-107 | past StartDocument, the probe answers true exactly for two elements named as configured and then `_v` |
| `DiscriminatedWrapperLemmas.ProbeSecondElement` | src/MongoDB.Bson/Serialization/Serializers/DiscriminatedWrapperSerializer.cs:104-107 | after the first field, the probe answers true exactly when one element named `_v` is left |
| `DiscriminatedWrapperLemmas.ProbeTrueIffWrapperShape` | src/MongoDB.Bson/Serialization/Serializers/DiscriminatedWrapperSerializer.cs:99-108 | on any stream, well-formed or not, the probe answers true if and only if the stream holds the wrapper shape: StartDocument, the configured name, a skippable value, `_v`, a skippable value, and a closing EndDocument or EndArray (ReadBsonType reports both as EndOfDocument) |
| `DiscriminatedWrapperLemmas.ProbeSecondTrueIffShape` | src/MongoDB.Bson/Serialization/Serializers/DiscriminatedWrapperSerializer.cs:104-108 | from where the second field should begin, the probe answers true if and only if `_v`, a skippable value and a closing EndDocument or EndArray follow |
| `DiscriminatedWrapperLemmas.ProbePastFirstName` | src/MongoDB.Bson/Serialization/Serializers/DiscriminatedWrapperSerializer.cs:101-103 | at a first element, the probe answers false on another name, and with the configured name goes on just past the element's value |
| `DiscriminatedWrapperLemmas.ProbeRecognisesSerialized` | src/MongoDB.Bson/Serialization/Serializers/DiscriminatedWrapperSerializer.cs:99-108 | the probe answers true on what Serialize wrote, when the payload is one BSON value |
| `BsonIO.BsonReader.SkipValue` | src/MongoDB.Bson/Serialization/Serializers/DiscriminatedWrapperSerializer.cs:64 | the loop over the tokens ends where `SkipFrom` does; on an error the cursor stays put |
| `BsonLemmas.SkipValueOverValue` | src/MongoDB.Bson/Serialization/Serializers/DiscriminatedWrapperSerializer.cs:64 | SkipValue over a serialized BSON value (scalar, array or document, nested to any depth) lands exactly after it |
| `BsonLemmas.SkipOverValue` | src/MongoDB.Bson/Serialization/Serializers/DiscriminatedWrapperSerializer.cs:103 | the same, at any nesting depth inside an enclosing value |
| `Bson.SkipFrom` | src/MongoDB.Bson/Serialization/Serializers/DiscriminatedWrapperSerializer.cs:106 | a successful skip moves forward and stays within the stream |
| `Bson.TypeAt` | src/MongoDB.Bson/Serialization/Serializers/DiscriminatedWrapperSerializer.cs:76 | the shared specification of ReadBsonType and GetCurrentBsonType: EndOfDocument exactly at an EndDocument or EndArray; a success only inside the stream; at a name followed by the start of a value, the type of that value |
| `Bson.ValueTokens` | src/MongoDB.Bson/Serialization/Serializers/DiscriminatedWrapperSerializer.cs:130 | how a BSON value such as the discriminator is written: a non-empty run of tokens that begins a value |
| `Bson.ReadDoubleAt` | src/MongoDB.Driver/GeoJsonObjectModel/Serializers/GeoJson3DGeographicCoordinatesSerializer.cs:48-50 | ReadDouble succeeds exactly at a double token, returns its bits and moves one past it |
| `BsonIO.BsonReader.GetCurrentBsonType` | src/MongoDB.Bson/Serialization/Serializers/DiscriminatedWrapperSerializer.cs:99 | reports `TypeAt` without moving the cursor |
| `BsonIO.BsonReader.ReadStartDocument` | src/MongoDB.Bson/Serialization/Serializers/DiscriminatedWrapperSerializer.cs:56 | consumes a StartDocument, or fails in place |
| `BsonIO.BsonReader.ReadEndDocument` | src/MongoDB.Bson/Serialization/Serializers/DiscriminatedWrapperSerializer.cs:82 | consumes an EndDocument, or fails in place |
| `BsonIO.BsonReader.DeserializeWith` | src/MongoDB.Bson/Serialization/Serializers/DiscriminatedWrapperSerializer.cs:74 | runs an inner serializer from the cursor: returns its value and moves to where it stopped, or fails in place with its error |
| `BsonIO.BsonReader.ReadNull` | src/MongoDB.Driver/GeoJsonObjectModel/Serializers/GeoJson3DGeographicCoordinatesSerializer.cs:42 | consumes a null value, or fails in place |
| `BsonIO.BsonReader.ReadStartArray` | src/MongoDB.Driver/GeoJsonObjectModel/Serializers/GeoJson3DGeographicCoordinatesSerializer.cs:47 | consumes a StartArray, or fails in place |
| `BsonIO.BsonReader.ReadDouble` | src/MongoDB.Driver/GeoJsonObjectModel/Serializers/GeoJson3DGeographicCoordinatesSerializer.cs:48-50 | consumes one double token and returns it, or fails in place |
| `BsonIO.BsonReader.ReadEndArray` | src/MongoDB.Driver/GeoJsonObjectModel/Serializers/GeoJson3DGeographicCoordinatesSerializer.cs:51 | consumes an EndArray, or fails in place |
| `BsonIO.BsonWriter.WriteStartDocument` | src/MongoDB.Bson/Serialization/Serializers/DiscriminatedWrapperSerializer.cs:128 | appends one StartDocument and nothing else |
| `BsonIO.BsonWriter.WriteName` | src/MongoDB.Bson/Serialization/Serializers/DiscriminatedWrapperSerializer.cs:129 | appends one Name token and nothing else |
| `BsonIO.BsonWriter.WriteBsonValue` | src/MongoDB.Bson/Serialization/Serializers/DiscriminatedWrapperSerializer.cs:130 | appends the tokens of the given BSON value and nothing else |
| `BsonIO.BsonWriter.WriteSerialized` | src/MongoDB.Bson/Serialization/Serializers/DiscriminatedWrapperSerializer.cs:132 | appends the tokens an inner serializer produced, unchanged |
| `BsonIO.BsonWriter.WriteEndDocument` | src/MongoDB.Bson/Serialization/Serializers/DiscriminatedWrapperSerializer.cs:133 | appends one EndDocument and nothing else |
| `BsonIO.BsonWriter.WriteStartArray` | src/MongoDB.Driver/GeoJsonObjectModel/Serializers/GeoJson3DGeographicCoordinatesSerializer.cs:66 | appends one StartArray and nothing else |
| `BsonIO.BsonWriter.WriteDouble` | src/MongoDB.Driver/GeoJsonObjectModel/Serializers/GeoJson3DGeographicCoordinatesSerializer.cs:67-69 | appends one double token carrying the given bits |
| `BsonIO.BsonWriter.WriteEndArray` | src/MongoDB.Driver/GeoJsonObjectModel/Serializers/GeoJson3DGeographicCoordinatesSerializer.cs:70 | appends one EndArray and nothing else |
| `BsonIO.BsonReader.GetBookmark` | src/MongoDB.Bson/Serialization/Serializers/DiscriminatedWrapperSerializer.cs:95 | the bookmark records the current position |
| `BsonIO.BsonReader.ReturnToBookmark` | src/MongoDB.Bson/Serialization/Serializers/DiscriminatedWrapperSerializer.cs:112 | the cursor is back at the bookmarked position |
| `BsonIO.BsonReader.ReadBsonType` | src/MongoDB.Bson/Serialization/Serializers/DiscriminatedWrapperSerializer.cs:76 | reports `TypeAt` without moving the cursor |
| `BsonIO.BsonReader.ReadName` | src/MongoDB.Bson/Serialization/Serializers/DiscriminatedWrapperSerializer.cs:58 | consumes one Name token and returns its name, or fails in place |
| `Bson.ExpectAt` | src/MongoDB.Bson/Serialization/Serializers/DiscriminatedWrapperSerializer.cs:56 | a read of one structural token succeeds exactly when that token is next, and moves one past it |
| `Bson.ReadNameAt` | src/MongoDB.Bson/Serialization/Serializers/DiscriminatedWrapperSerializer.cs:66 | ReadName succeeds exactly at a Name token, returns that name and moves one past it |
| `GeoJsonCoordinates.CoordinateTokens` | src/MongoDB.Driver/GeoJsonObjectModel/Serializers/GeoJson3DGeographicCoordinatesSerializer.cs:66-70 | what SerializeValue writes: five tokens, StartArray first and EndArray last (`WritesThreeDoubleArray` states the three doubles between them) |
| `GeoJsonCoordinates.DeserializeAt` | src/MongoDB.Driver/GeoJsonObjectModel/Serializers/GeoJson3DGeographicCoordinatesSerializer.cs:36-55 | the result is null exactly when the next token is a BSON null, which is then the one token consumed; coordinates consume five tokens |
| `GeoJsonCoordinates.Deserialize` | src/MongoDB.Driver/GeoJsonObjectModel/Serializers/GeoJson3DGeographicCoordinatesSerializer.cs:36-55 | returns what `DeserializeAt` gives and leaves the reader where it ends; otherwise raises the same exception |
| `GeoJsonCoordinates.SerializeValue` | src/MongoDB.Driver/GeoJsonObjectModel/Serializers/GeoJson3DGeographicCoordinatesSerializer.cs:62-71 | appends exactly StartArray, the three components as doubles in the order longitude, latitude, altitude, and EndArray |
| `GeoJsonCoordinatesLemmas.WritesThreeDoubleArray` | src/MongoDB.Driver/GeoJsonObjectModel/Serializers/GeoJson3DGeographicCoordinatesSerializer.cs:66-70 | what SerializeValue writes is the BSON array of the three components as doubles, in that order |
| `GeoJsonCoordinatesLemmas.CoordinatesExactlyAtArray` | src/MongoDB.Driver/GeoJsonObjectModel/Serializers/GeoJson3DGeographicCoordinatesSerializer.cs:47-53 | Deserialize yields coordinates `c` and moves five tokens on exactly when the stream holds StartArray, `c`'s longitude, latitude and altitude as doubles, and EndArray |
| `GeoJsonCoordinatesLemmas.RoundTrip` | src/MongoDB.Driver/GeoJsonObjectModel/Serializers/GeoJson3DGeographicCoordinatesSerializer.cs:47-53 | reading back what SerializeValue wrote, whatever surrounds it, yields the same coordinates and consumes all of it |
| `GeoJsonCoordinatesLemmas.RejectsFourthElement` | src/MongoDB.Driver/GeoJsonObjectModel/Serializers/GeoJson3DGeographicCoordinatesSerializer.cs:51 | an array with a value after the third double fails at ReadEndArray, at that value |
| `GeoJsonCoordinatesLemmas.RejectsTwoElements` | src/MongoDB.Driver/GeoJsonObjectModel/Serializers/GeoJson3DGeographicCoordinatesSerializer.cs:48-50 | an array that ends after two doubles fails where the third double should be |
| `GeoJsonCoordinatesLemmas.RejectsOtherValues` | src/MongoDB.Driver/GeoJsonObjectModel/Serializers/GeoJson3DGeographicCoordinatesSerializer.cs:40-47 | any value other than a null or an array fails at ReadStartArray, before anything is consumed |

## Left out

- The BSON byte layout is not modelled. This covers length prefixes, type bytes, C-string names, and the binary reader's errors on truncated or corrupt bytes. A token stream stands in for it, and a read past its end is `EndOfStream`.
- `Bson.SkipFrom` skips by counting nesting depth and does not validate what it passes over. The binary reader behaves alike: it jumps over the length prefix.
- `Bson.TypeAt` is the shared specification of `GetCurrentBsonType` and `ReadBsonType`. The reader's state machine (states Initial, Type, Name, Value, EndOfDocument, …) is not modelled. At a name, both report the type of the element's value. At an end marker both report EndOfDocument, so the probe answers `false` there. In the driver, GetCurrentBsonType at an end marker is a reader-state error instead, because no value is current; the reader's source is not part of this model, so this follows the reader's documented API.
- The discriminator convention's internals are not modelled: how it resolves the actual type, and how it builds the discriminator. It is a pair of functions. Its `GetActualType` is a function of the stream and the position, so it cannot move the reader.
- `BsonSerializer.LookupSerializer` is a map from type names to serializers. A type without an entry raises `NoSerializer`. The global registry's on-demand creation of serializers and its caching are not part of this model.
- `DiscriminatedWrapperLemmas.RoundTrip` assumes that the registry's serializer for the runtime type reads back what the wrapped serializer wrote. The source does not promise this; it uses the wrapped serializer only to write and the registry only to read.
- The `(TValue)` cast at the end of Deserialize is not modelled. Types are names, and the value is returned as the inner serializer produced it.
- `DiscriminatedWrapper.DiscriminatedWrapperSerializer.Serialize`: a null `value` would throw at `GetType()`. The model has no null objects.
- `DiscriminatedWrapper.DiscriminatedWrapperSerializer.Serialize` cannot fail in the model. The write-side collaborators are total functions here: the convention's `getDiscriminator` and the wrapped serializer's `serialize`. So an exception from `GetDiscriminator` (line 126), from writing the discriminator (line 130) or from the wrapped serializer (line 132) is not modelled. Neither is the half-written document such an exception leaves on the writer. The read-side collaborators can fail: they return a `Result`.
- Deserialization and serialization contexts are not modelled, including child contexts and their nominal type. Only the nominal (or actual) type they carry is passed on.
- `GeoJsonCoordinates.DeserializeAt` reads each component as a BSON double only. The `DoubleSerializer` it delegates to is not part of this model. That serializer also converts Int32, Int64, Decimal128 and strings, and reports an unsupported type as a FormatException. Here such a token is an `InvalidOperation` of ReadDouble.
- The null check and null write of `ClassSerializerBase` are not part of this model. `SerializeValue` is only called with a non-null position.
- Doubles are opaque 64-bit patterns (`Float64`). Neither serializer computes with them, so no floating-point arithmetic is modelled.
- After an exception, the reader's position is left unspecified, as in the source. Only `IsPositionedAtDiscriminatedWrapper` promises where the reader is on every path.
