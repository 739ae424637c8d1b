/**
 * The discriminated-wrapper serializer: a polymorphic value is written as the
 * two-field document { <element name>: <discriminator>, _v: <payload> } and
 * read back under strict, order-sensitive checks; a probe tells, without
 * moving the reader, whether the reader is at such a document.
 */
module DiscriminatedWrapper {
  import opened Wrappers
  import opened Bson
  import opened BsonLemmas
  import opened BsonIO

  type TypeName = string

  /** A runtime object: the type GetType() reports and the state its serializer writes. */
  datatype Instance<S> = Instance(runtimeType: TypeName, state: S)

  /**
   * The discriminator convention, a collaborator: the configured element
   * name, the actual type read from the stream for a nominal type, and the
   * discriminator for a (nominal type, actual type) pair. Being a function of
   * the stream and the position, getActualType leaves the reader where it was,
   * at the start of the document.
   */
  datatype DiscriminatorConvention = DiscriminatorConvention(
    elementName: string,
    getActualType: (seq<Token>, nat, TypeName) -> Result<TypeName, BsonError>,
    getDiscriminator: (TypeName, TypeName) -> BsonValue)

  /**
   * A serializer for values of type V, a collaborator. Both directions take
   * the nominal type of the context they run in; deserialize returns the
   * value and the position after it.
   */
  datatype Serializer<!V> = Serializer(
    serialize: (TypeName, V) -> seq<Token>,
    deserialize: (TypeName, seq<Token>, nat) -> Result<(V, nat), BsonError>)

  /** The fixed name of the payload field. */
  const PayloadName: string := "_v"

  /** What Serialize writes for `value` in a context of nominal type `nominalType`. */
  function WrapperTokens<S>(convention: DiscriminatorConvention, wrapped: Serializer<Instance<S>>,
                            nominalType: TypeName, value: Instance<S>): (ts: seq<Token>)
    ensures var d := convention.getDiscriminator(nominalType, value.runtimeType);
      && |ts| == 4 + |ValueTokens(d)| + |wrapped.serialize(value.runtimeType, value)|
      && ts[0] == StartDocument && ts[1] == Name(convention.elementName)
      && ts[2 + |ValueTokens(d)|] == Name(PayloadName) && ts[|ts| - 1] == EndDocument
  {
    var actualType := value.runtimeType;
    [StartDocument, Name(convention.elementName)]
      + ValueTokens(convention.getDiscriminator(nominalType, actualType))
      + [Name(PayloadName)]
      + wrapped.serialize(actualType, value)
      + [EndDocument]
  }

  /**
   * What Deserialize does with the stream `ts` from position p: the value and
   * the position after the wrapper, or the exception it raises. The actual
   * type comes from the convention alone; the discriminator's value is skipped.
   * The payload serializer is looked up in `registry` by the actual type.
   */
  function DeserializeAt<S>(convention: DiscriminatorConvention, registry: map<TypeName, Serializer<Instance<S>>>,
                            ts: seq<Token>, p: nat, nominalType: TypeName): (r: Result<(Instance<S>, nat), BsonError>)
    ensures r.Success? ==> convention.getActualType(ts, p, nominalType).Success?
    ensures r.Success? ==> p + 1 < |ts| && ts[p] == StartDocument && ts[p + 1] == Name(convention.elementName)
  {
    var actualType :- convention.getActualType(ts, p, nominalType);
    var p1 :- ExpectAt(ts, p, StartDocument, "ReadStartDocument");
    var first :- ReadNameAt(ts, p1);
    if first.0 != convention.elementName then
      Failure(FormatException(WrongFirstField(convention.elementName, first.0)))
    else
      var p2 :- SkipFrom(ts, first.1, 0);
      DeserializeSecondFieldAt(convention, registry, ts, p2, actualType)
  }

  /**
   * The rest of Deserialize, from where the second field should begin, once
   * the first field (named as configured) has been passed.
   */
  function DeserializeSecondFieldAt<S>(convention: DiscriminatorConvention, registry: map<TypeName, Serializer<Instance<S>>>,
                                     ts: seq<Token>, p2: nat, actualType: TypeName): (r: Result<(Instance<S>, nat), BsonError>)
    ensures r.Success? ==> p2 < |ts| && ts[p2] == Name(PayloadName) && actualType in registry
  {
    var second :- ReadNameAt(ts, p2);
    if second.0 != PayloadName then
      // the message reports the first field's name, which is the configured one, not the one found
      Failure(FormatException(WrongSecondField(convention.elementName)))
    else if actualType !in registry then
      Failure(NoSerializer(actualType))
    else
      var payload :- registry[actualType].deserialize(actualType, ts, second.1);
      var t :- TypeAt(ts, payload.1);
      if t != EndOfDocument then
        Failure(FormatException(NotTwoFields(convention.elementName)))
      else
        var p3 :- ExpectAt(ts, payload.1, EndDocument, "ReadEndDocument");
        Success((payload.0, p3))
  }

  /** What the structural probe answers at position p of `ts` (or the read error it meets). */
  function ProbeAt(elementName: string, ts: seq<Token>, p: nat): (r: Result<bool, BsonError>)
    ensures r == Success(true) ==> p + 1 < |ts| && ts[p] == StartDocument && ts[p + 1] == Name(elementName)
  {
    var t0 :- TypeAt(ts, p);
    if t0 != Document then Success(false) else
    var p1 :- ExpectAt(ts, p, StartDocument, "ReadStartDocument");
    ProbeFirstFieldAt(elementName, ts, p1)
  }

  /** The probe past the StartDocument, where the first field should begin. */
  function ProbeFirstFieldAt(elementName: string, ts: seq<Token>, p1: nat): (r: Result<bool, BsonError>)
    ensures r == Success(true) ==> p1 < |ts| && ts[p1] == Name(elementName)
  {
    var t1 :- TypeAt(ts, p1);
    if t1 == EndOfDocument then Success(false) else
    var first :- ReadNameAt(ts, p1);
    if first.0 != elementName then Success(false) else
    var p2 :- SkipFrom(ts, first.1, 0);
    ProbeSecondFieldAt(ts, p2)
  }

  /** The rest of the probe, from where the second field should begin. */
  function ProbeSecondFieldAt(ts: seq<Token>, p2: nat): (r: Result<bool, BsonError>)
    ensures r == Success(true) ==> p2 < |ts| && ts[p2] == Name(PayloadName)
  {
    var t2 :- TypeAt(ts, p2);
    if t2 == EndOfDocument then Success(false) else
    var second :- ReadNameAt(ts, p2);
    if second.0 != PayloadName then Success(false) else
    var p3 :- SkipFrom(ts, second.1, 0);
    var t3 :- TypeAt(ts, p3);
    Success(t3 == EndOfDocument)
  }

  /**
   * The wrapper shape itself: a document whose first element is named
   * `elementName`, whose second is named "_v", and which ends after the second
   * with a closing EndDocument or EndArray (ReadBsonType reports both as
   * EndOfDocument).
   */
  ghost predicate WrapperShapeAt(elementName: string, ts: seq<Token>, p: nat) {
    && At(ts, p, [StartDocument, Name(elementName)])
    && SkipFrom(ts, p + 2, 0).Success?
    && var j := SkipFrom(ts, p + 2, 0).value;
       && At(ts, j, [Name(PayloadName)])
       && SkipFrom(ts, j + 1, 0).Success?
       && var k := SkipFrom(ts, j + 1, 0).value;
          k < |ts| && DepthChange(ts[k]) == -1
  }

  class DiscriminatedWrapperSerializer<S> {
    const discriminatorConvention: DiscriminatorConvention
    const wrappedSerializer: Serializer<Instance<S>>

    constructor (discriminatorConvention: DiscriminatorConvention, wrappedSerializer: Serializer<Instance<S>>)
      ensures this.discriminatorConvention == discriminatorConvention
      ensures this.wrappedSerializer == wrappedSerializer
    {
      this.discriminatorConvention := discriminatorConvention;
      this.wrappedSerializer := wrappedSerializer;
    }

    /**
     * Reads a wrapper document. On success the reader is just after the
     * document; after an exception its position is unspecified.
     */
    method Deserialize(reader: BsonReader, nominalType: TypeName, registry: map<TypeName, Serializer<Instance<S>>>)
      returns (r: Result<Instance<S>, BsonError>)
      modifies reader
      ensures Delivered(r, DeserializeAt(discriminatorConvention, registry, reader.tokens, old(reader.pos), nominalType), reader.pos)
    {
      var elementName := discriminatorConvention.elementName;
      var actualType :- discriminatorConvention.getActualType(reader.tokens, reader.pos, nominalType);

      :- reader.ReadStartDocument();

      var firstElementName :- reader.ReadName();
      if firstElementName != elementName {
        return Failure(FormatException(WrongFirstField(elementName, firstElementName)));
      }
      :- reader.SkipValue();

      var secondElementName :- reader.ReadName();
      if secondElementName != PayloadName {
        return Failure(FormatException(WrongSecondField(firstElementName)));
      }

      if actualType !in registry {
        return Failure(NoSerializer(actualType));
      }
      var serializer := registry[actualType];
      var value :- reader.DeserializeWith((ts, q) => serializer.deserialize(actualType, ts, q));

      var t :- reader.ReadBsonType();
      if t != EndOfDocument {
        return Failure(FormatException(NotTwoFields(elementName)));
      }

      :- reader.ReadEndDocument();
      return Success(value);
    }

    /** Whether the reader is at a wrapper document; the reader is back where it was on every path. */
    method IsPositionedAtDiscriminatedWrapper(reader: BsonReader) returns (r: Result<bool, BsonError>)
      modifies reader
      ensures reader.pos == old(reader.pos)
      ensures r == ProbeAt(discriminatorConvention.elementName, reader.tokens, old(reader.pos))
    {
      var bookmark := reader.GetBookmark();
      r := InspectShape(reader);   // the guarded block; returns normally, early or with an error
      reader.ReturnToBookmark(bookmark);   // always runs afterwards
    }

    /** The inspection the probe runs between taking and returning to its bookmark. */
    method InspectShape(reader: BsonReader) returns (r: Result<bool, BsonError>)
      modifies reader
      ensures r == ProbeAt(discriminatorConvention.elementName, reader.tokens, old(reader.pos))
    {
      var t0 :- reader.GetCurrentBsonType();
      if t0 != Document { return Success(false); }
      :- reader.ReadStartDocument();
      var t1 :- reader.ReadBsonType();
      if t1 == EndOfDocument { return Success(false); }
      var first :- reader.ReadName();
      if first != discriminatorConvention.elementName { return Success(false); }
      :- reader.SkipValue();
      var t2 :- reader.ReadBsonType();
      if t2 == EndOfDocument { return Success(false); }
      var second :- reader.ReadName();
      if second != PayloadName { return Success(false); }
      :- reader.SkipValue();
      var t3 :- reader.ReadBsonType();
      if t3 != EndOfDocument { return Success(false); }
      return Success(true);
    }

    /** Writes `value` as a wrapper document, the payload under a context of its runtime type. */
    method Serialize(writer: BsonWriter, nominalType: TypeName, value: Instance<S>)
      modifies writer
      ensures writer.tokens == old(writer.tokens) + WrapperTokens(discriminatorConvention, wrappedSerializer, nominalType, value)
    {
      var actualType := value.runtimeType;
      var discriminator := discriminatorConvention.getDiscriminator(nominalType, actualType);

      writer.WriteStartDocument();
      writer.WriteName(discriminatorConvention.elementName);
      writer.WriteBsonValue(discriminator);
      writer.WriteName(PayloadName);
      writer.WriteSerialized(wrappedSerializer.serialize(actualType, value));
      writer.WriteEndDocument();
    }
  }
}

/** Properties of the wrapper codec: what the probe recognises, how decoding fails, and the round trip. */
module DiscriminatedWrapperLemmas {
  import opened Wrappers
  import opened Bson
  import opened BsonLemmas
  import opened DiscriminatedWrapper

  // ---- Helpers about the token layout of documents ----

  lemma {:induction false} ElementsAt(ts: seq<Token>, i: nat, es: seq<BsonElement>)
    requires es != [] && At(ts, i, ElementsTokens(es))
    ensures ts[i] == Name(es[0].name)
    ensures At(ts, i + 1, ValueTokens(es[0].value))
    ensures At(ts, i + 1 + |ValueTokens(es[0].value)|, ElementsTokens(es[1..]))
    ensures |ElementsTokens(es)| == 1 + |ValueTokens(es[0].value)| + |ElementsTokens(es[1..])|
  {
    var e := es[0];
    AtSplit(ts, i, [Name(e.name)] + ValueTokens(e.value), ElementsTokens(es[1..]));
    AtSplit(ts, i, [Name(e.name)], ValueTokens(e.value));
    assert ts[i] == [Name(e.name)][0];
  }

  lemma {:induction false} DocumentAt(ts: seq<Token>, p: nat, es: seq<BsonElement>)
    requires At(ts, p, ValueTokens(BsonDocument(es)))
    ensures ts[p] == StartDocument
    ensures At(ts, p + 1, ElementsTokens(es))
    ensures ts[p + 1 + |ElementsTokens(es)|] == EndDocument
  {
    AtSplit(ts, p, [StartDocument] + ElementsTokens(es), [EndDocument]);
    AtSplit(ts, p, [StartDocument], ElementsTokens(es));
    assert ts[p] == [StartDocument][0];
    assert ts[p + 1 + |ElementsTokens(es)|] == [EndDocument][0];
  }

  /** At the name of an element, ReadBsonType reports the type of its value, never EndOfDocument. */
  lemma {:induction false} TypeAtElement(ts: seq<Token>, i: nat, v: BsonValue)
    requires i < |ts| && ts[i].Name? && At(ts, i + 1, ValueTokens(v))
    ensures TypeAt(ts, i) == Success(TypeOfValueStart(ValueTokens(v)[0]))
    ensures TypeAt(ts, i).value != EndOfDocument
  {
    assert ts[i + 1] == ValueTokens(v)[0];
  }

  /** SkipValue succeeds only where a value begins. */
  lemma {:induction false} SkipStartsAtValue(ts: seq<Token>, i: nat)
    requires SkipFrom(ts, i, 0).Success?
    ensures i < |ts| && StartsValue(ts[i])
  {
  }

  // ---- The probe ----

  /**
   * On a well-formed BSON value the probe never raises, and answers true
   * exactly for a document of two elements named `elementName` and "_v", in
   * that order: a non-document, an empty document, a one-field document, a
   * document with a third field, or a wrong name all give false.
   */
  lemma {:induction false} ProbeOnValue(elementName: string, ts: seq<Token>, p: nat, v: BsonValue)
    requires At(ts, p, ValueTokens(v))
    ensures ProbeAt(elementName, ts, p) ==
      Success(v.BsonDocument? && |v.elements| == 2
              && v.elements[0].name == elementName && v.elements[1].name == PayloadName)
  {
    assert ts[p] == ValueTokens(v)[0];
    if v.BsonDocument? {
      var es := v.elements;
      DocumentAt(ts, p, es);
      if es != [] {
        ProbeFirstElement(elementName, ts, p, es);
      }
    }
  }

  lemma {:induction false} ProbeFirstElement(elementName: string, ts: seq<Token>, p: nat, es: seq<BsonElement>)
    requires es != []
    requires At(ts, p + 1, ElementsTokens(es)) && p + 1 + |ElementsTokens(es)| < |ts|
    requires ts[p] == StartDocument && ts[p + 1 + |ElementsTokens(es)|] == EndDocument
    ensures ProbeAt(elementName, ts, p) ==
      Success(|es| == 2 && es[0].name == elementName && es[1].name == PayloadName)
  {
    assert TypeAt(ts, p) == Success(Document);
    assert ExpectAt(ts, p, StartDocument, "ReadStartDocument") == Success(p + 1);
    assert ProbeAt(elementName, ts, p) == ProbeFirstFieldAt(elementName, ts, p + 1);
    ProbeFirstField(elementName, ts, p + 1, es);
  }

  lemma {:induction false} ProbeFirstField(elementName: string, ts: seq<Token>, i: nat, es: seq<BsonElement>)
    requires es != []
    requires At(ts, i, ElementsTokens(es)) && i + |ElementsTokens(es)| < |ts|
    requires ts[i + |ElementsTokens(es)|] == EndDocument
    ensures ProbeFirstFieldAt(elementName, ts, i) ==
      Success(|es| == 2 && es[0].name == elementName && es[1].name == PayloadName)
  {
    var e, rest := es[0], es[1..];
    ElementsAt(ts, i, es);
    ProbePastFirstName(elementName, ts, i, e.name, e.value);
    if e.name == elementName {
      var j := i + 1 + |ValueTokens(e.value)|;
      assert j + |ElementsTokens(rest)| == i + |ElementsTokens(es)|;
      ProbeSecondElement(ts, j, rest);
      assert (|rest| == 1 && rest[0].name == PayloadName) == (|es| == 2 && es[1].name == PayloadName);
    }
  }

  /** At a first element, the probe goes on past its value when the name is the configured one, and answers false otherwise. */
  lemma {:induction false} ProbePastFirstName(elementName: string, ts: seq<Token>, i: nat, name: string, v: BsonValue)
    requires i < |ts| && ts[i] == Name(name) && At(ts, i + 1, ValueTokens(v))
    ensures ProbeFirstFieldAt(elementName, ts, i) ==
      if name == elementName then ProbeSecondFieldAt(ts, i + 1 + |ValueTokens(v)|) else Success(false)
  {
    TypeAtElement(ts, i, v);
    SkipValueOverValue(ts, i + 1, v);
  }

  lemma {:induction false} ProbeSecondElement(ts: seq<Token>, j: nat, rest: seq<BsonElement>)
    requires At(ts, j, ElementsTokens(rest)) && j + |ElementsTokens(rest)| < |ts|
    requires ts[j + |ElementsTokens(rest)|] == EndDocument
    ensures ProbeSecondFieldAt(ts, j) == Success(|rest| == 1 && rest[0].name == PayloadName)
  {
    DocumentEndAt(ts, j, rest);
    if rest != [] {
      ElementsAt(ts, j, rest);
      assert ReadNameAt(ts, j) == Success((rest[0].name, j + 1));
      if rest[0].name == PayloadName {
        var k := j + 1 + |ValueTokens(rest[0].value)|;
        SkipValueOverValue(ts, j + 1, rest[0].value);
        DocumentEndAt(ts, k, rest[1..]);
      }
    }
  }

  /** Inside a document, ReadBsonType reports EndOfDocument exactly where no element is left. */
  lemma {:induction false} DocumentEndAt(ts: seq<Token>, j: nat, rest: seq<BsonElement>)
    requires At(ts, j, ElementsTokens(rest)) && j + |ElementsTokens(rest)| < |ts|
    requires ts[j + |ElementsTokens(rest)|] == EndDocument
    ensures TypeAt(ts, j).Success?
    ensures TypeAt(ts, j).value == EndOfDocument <==> rest == []
  {
    if rest != [] {
      ElementsAt(ts, j, rest);
      TypeAtElement(ts, j, rest[0].value);
    }
  }

  /**
   * On any stream, well-formed or not, the probe answers true exactly at the
   * wrapper shape, whose closing token may be an EndDocument or an EndArray.
   */
  lemma {:induction false} ProbeTrueIffWrapperShape(elementName: string, ts: seq<Token>, p: nat)
    ensures ProbeAt(elementName, ts, p) == Success(true) <==> WrapperShapeAt(elementName, ts, p)
  {
    AtPair(ts, p, StartDocument, Name(elementName));
    if SkipFrom(ts, p + 2, 0).Success? {
      SkipStartsAtValue(ts, p + 2);
      var j := SkipFrom(ts, p + 2, 0).value;
      ProbeSecondTrueIffShape(ts, j);
      if At(ts, p, [StartDocument, Name(elementName)]) {
        assert ProbeAt(elementName, ts, p) == ProbeSecondFieldAt(ts, j);
      }
    }
  }

  /** From where the second field should begin, the probe answers true exactly at `_v`, a value and a closing token. */
  lemma {:induction false} ProbeSecondTrueIffShape(ts: seq<Token>, j: nat)
    ensures ProbeSecondFieldAt(ts, j) == Success(true) <==>
      && At(ts, j, [Name(PayloadName)])
      && SkipFrom(ts, j + 1, 0).Success?
      && var k := SkipFrom(ts, j + 1, 0).value;
         k < |ts| && DepthChange(ts[k]) == -1
  {
    AtSingle(ts, j, Name(PayloadName));
    if SkipFrom(ts, j + 1, 0).Success? {
      SkipStartsAtValue(ts, j + 1);
    }
  }

  lemma {:induction false} AtPair(ts: seq<Token>, i: nat, a: Token, b: Token)
    ensures At(ts, i, [a, b]) <==> i + 1 < |ts| && ts[i] == a && ts[i + 1] == b
  {
    if i + 1 < |ts| {
      assert ts[i..i + 2] == [ts[i], ts[i + 1]];
    }
  }

  lemma {:induction false} AtSingle(ts: seq<Token>, i: nat, a: Token)
    ensures At(ts, i, [a]) <==> i < |ts| && ts[i] == a
  {
    if i < |ts| {
      assert ts[i..i + 1] == [ts[i]];
    }
  }

  /**
   * What Serialize writes is recognised by the probe, provided the wrapped
   * serializer writes the payload as one BSON value.
   */
  lemma {:induction false} ProbeRecognisesSerialized<S>(convention: DiscriminatorConvention, wrapped: Serializer<Instance<S>>,
                                     nominalType: TypeName, value: Instance<S>, payload: BsonValue,
                                     ts: seq<Token>, p: nat)
    requires wrapped.serialize(value.runtimeType, value) == ValueTokens(payload)
    requires At(ts, p, WrapperTokens(convention, wrapped, nominalType, value))
    ensures ProbeAt(convention.elementName, ts, p) == Success(true)
  {
    var d := convention.getDiscriminator(nominalType, value.runtimeType);
    var es := [BsonElement(convention.elementName, d), BsonElement(PayloadName, payload)];
    assert ElementsTokens(es[2..]) == [];
    assert ElementsTokens(es[1..]) == [Name(PayloadName)] + ValueTokens(payload);
    assert ElementsTokens(es) == [Name(convention.elementName)] + ValueTokens(d) + [Name(PayloadName)] + ValueTokens(payload);
    assert WrapperTokens(convention, wrapped, nominalType, value) == ValueTokens(BsonDocument(es));
    ProbeOnValue(convention.elementName, ts, p, BsonDocument(es));
  }

  // ---- Deserialize ----

  /** The actual type is resolved before anything is read: a resolution error is raised whatever follows. */
  lemma {:induction false} ResolutionComesFirst<S>(convention: DiscriminatorConvention, registry: map<TypeName, Serializer<Instance<S>>>,
                                ts: seq<Token>, p: nat, nominalType: TypeName)
    requires convention.getActualType(ts, p, nominalType).Failure?
    ensures DeserializeAt(convention, registry, ts, p, nominalType) ==
      Failure(convention.getActualType(ts, p, nominalType).error)
  {
  }

  /** A first field with another name than the configured one is a format error naming both, and no value. */
  lemma {:induction false} RejectsWrongFirstField<S>(convention: DiscriminatorConvention, registry: map<TypeName, Serializer<Instance<S>>>,
                                  ts: seq<Token>, p: nat, nominalType: TypeName, found: string)
    requires convention.getActualType(ts, p, nominalType).Success?
    requires At(ts, p, [StartDocument, Name(found)]) && found != convention.elementName
    ensures DeserializeAt(convention, registry, ts, p, nominalType) ==
      Failure(FormatException(WrongFirstField(convention.elementName, found)))
  {
    assert ts[p] == [StartDocument, Name(found)][0];
    assert ts[p + 1] == [StartDocument, Name(found)][1];
  }

  /** The reads over the two field names and the discriminator's value of a wrapper head. */
  lemma {:induction false} WrapperHeadAt(elementName: string, ts: seq<Token>, p: nat, discriminator: BsonValue, second: string)
    requires At(ts, p, [StartDocument, Name(elementName)] + ValueTokens(discriminator) + [Name(second)])
    ensures ExpectAt(ts, p, StartDocument, "ReadStartDocument") == Success(p + 1)
    ensures ReadNameAt(ts, p + 1) == Success((elementName, p + 2))
    ensures var j := p + 2 + |ValueTokens(discriminator)|;
      && SkipFrom(ts, p + 2, 0) == Success(j)
      && ReadNameAt(ts, j) == Success((second, j + 1))
  {
    var head := [StartDocument, Name(elementName)];
    AtSplit(ts, p, head + ValueTokens(discriminator), [Name(second)]);
    AtSplit(ts, p, head, ValueTokens(discriminator));
    assert ts[p] == head[0] && ts[p + 1] == head[1];
    SkipValueOverValue(ts, p + 2, discriminator);
    assert ts[p + 2 + |ValueTokens(discriminator)|] == [Name(second)][0];
  }

  /** Past a first field named as configured, Deserialize goes on with its second stage. */
  lemma {:induction false} DeserializePastFirstField<S>(convention: DiscriminatorConvention, registry: map<TypeName, Serializer<Instance<S>>>,
                                                        ts: seq<Token>, p: nat, nominalType: TypeName, actualType: TypeName,
                                                        discriminator: BsonValue, second: string)
    requires convention.getActualType(ts, p, nominalType) == Success(actualType)
    requires At(ts, p, [StartDocument, Name(convention.elementName)] + ValueTokens(discriminator) + [Name(second)])
    ensures DeserializeAt(convention, registry, ts, p, nominalType) ==
      DeserializeSecondFieldAt(convention, registry, ts, p + 2 + |ValueTokens(discriminator)|, actualType)
  {
    WrapperHeadAt(convention.elementName, ts, p, discriminator, second);
  }

  /**
   * A second field not named "_v" is a format error; its message reports the
   * first field's name (the configured one), not the name that was found.
   */
  lemma {:induction false} RejectsWrongSecondField<S>(convention: DiscriminatorConvention, registry: map<TypeName, Serializer<Instance<S>>>,
                                   ts: seq<Token>, p: nat, nominalType: TypeName, actualType: TypeName,
                                   discriminator: BsonValue, found: string)
    requires convention.getActualType(ts, p, nominalType) == Success(actualType)
    requires At(ts, p, [StartDocument, Name(convention.elementName)] + ValueTokens(discriminator) + [Name(found)])
    requires found != PayloadName
    ensures DeserializeAt(convention, registry, ts, p, nominalType) ==
      Failure(FormatException(WrongSecondField(convention.elementName)))
  {
    DeserializePastFirstField(convention, registry, ts, p, nominalType, actualType, discriminator, found);
    WrapperHeadAt(convention.elementName, ts, p, discriminator, found);
  }

  /**
   * The message of a wrong second field is the one that would name the
   * configured element name, so whenever the name found differs from it,
   * the text is not the one that names what was found.
   */
  lemma {:induction false} WrongSecondFieldHidesFound<S>(convention: DiscriminatorConvention, registry: map<TypeName, Serializer<Instance<S>>>,
                                   ts: seq<Token>, p: nat, nominalType: TypeName, actualType: TypeName,
                                   discriminator: BsonValue, found: string)
    requires convention.getActualType(ts, p, nominalType) == Success(actualType)
    requires At(ts, p, [StartDocument, Name(convention.elementName)] + ValueTokens(discriminator) + [Name(found)])
    requires found != PayloadName && found != convention.elementName
    ensures var r := DeserializeAt(convention, registry, ts, p, nominalType);
      r.Failure? && r.error.FormatException? &&
      r.error.reason.Message() == WrongSecondField(convention.elementName).Message() &&
      r.error.reason.Message() != WrongSecondField(found).Message()
  {
    RejectsWrongSecondField(convention, registry, ts, p, nominalType, actualType, discriminator, found);
    SecondFieldMessageShowsReported(convention.elementName, found);
  }

  /**
   * A wrapper that ends after its first field is not a format error: the
   * second ReadName meets the EndDocument and raises an invalid operation.
   */
  lemma {:induction false} RejectsMissingSecondField<S>(convention: DiscriminatorConvention, registry: map<TypeName, Serializer<Instance<S>>>,
                                     ts: seq<Token>, p: nat, nominalType: TypeName, discriminator: BsonValue)
    requires convention.getActualType(ts, p, nominalType).Success?
    requires At(ts, p, [StartDocument, Name(convention.elementName)] + ValueTokens(discriminator) + [EndDocument])
    ensures DeserializeAt(convention, registry, ts, p, nominalType) ==
      Failure(InvalidOperation("ReadName", p + 2 + |ValueTokens(discriminator)|))
  {
    var head := [StartDocument, Name(convention.elementName)];
    AtSplit(ts, p, head + ValueTokens(discriminator), [EndDocument]);
    AtSplit(ts, p, head, ValueTokens(discriminator));
    assert ts[p] == head[0] && ts[p + 1] == head[1];
    SkipValueOverValue(ts, p + 2, discriminator);
    AtHead(ts, p + 2 + |ValueTokens(discriminator)|, [EndDocument]);
  }

  /** A field after the payload is a format error: a wrapper has exactly two fields. */
  lemma {:induction false} RejectsThirdField<S>(convention: DiscriminatorConvention, registry: map<TypeName, Serializer<Instance<S>>>,
                             ts: seq<Token>, p: nat, nominalType: TypeName, actualType: TypeName,
                             discriminator: BsonValue, payload: Instance<S>, payloadEnd: nat, extra: BsonElement)
    requires convention.getActualType(ts, p, nominalType) == Success(actualType)
    requires At(ts, p, [StartDocument, Name(convention.elementName)] + ValueTokens(discriminator) + [Name(PayloadName)])
    requires actualType in registry
    requires registry[actualType].deserialize(actualType, ts, p + 3 + |ValueTokens(discriminator)|) == Success((payload, payloadEnd))
    requires At(ts, payloadEnd, [Name(extra.name)] + ValueTokens(extra.value))
    ensures DeserializeAt(convention, registry, ts, p, nominalType) ==
      Failure(FormatException(NotTwoFields(convention.elementName)))
  {
    DeserializePastFirstField(convention, registry, ts, p, nominalType, actualType, discriminator, PayloadName);
    WrapperHeadAt(convention.elementName, ts, p, discriminator, PayloadName);
    AtSplit(ts, payloadEnd, [Name(extra.name)], ValueTokens(extra.value));
    assert ts[payloadEnd] == [Name(extra.name)][0];
    TypeAtElement(ts, payloadEnd, extra.value);
  }

  /**
   * A successful decode read a document whose first field has the configured
   * name, whose second is "_v", and which closes right after the payload; the
   * discriminator's value was only skipped, and the value is what the
   * registry's serializer for the resolved actual type read, in a context of
   * that type.
   */
  lemma {:induction false} DecodedShape<S>(convention: DiscriminatorConvention, registry: map<TypeName, Serializer<Instance<S>>>,
                        ts: seq<Token>, p: nat, nominalType: TypeName)
    requires DeserializeAt(convention, registry, ts, p, nominalType).Success?
    ensures convention.getActualType(ts, p, nominalType).Success?
    ensures var t := convention.getActualType(ts, p, nominalType).value;
      var r := DeserializeAt(convention, registry, ts, p, nominalType).value;
      && At(ts, p, [StartDocument, Name(convention.elementName)])
      && SkipFrom(ts, p + 2, 0).Success?
      && var j := SkipFrom(ts, p + 2, 0).value;
         && At(ts, j, [Name(PayloadName)])
         && t in registry
         && r.1 > 0
         && registry[t].deserialize(t, ts, j + 1) == Success((r.0, r.1 - 1))
         && ts[r.1 - 1] == EndDocument
  {
    AtPair(ts, p, StartDocument, Name(convention.elementName));
    AtSingle(ts, SkipFrom(ts, p + 2, 0).value, Name(PayloadName));
  }

  /** Where the head, the payload and the closing token of a written wrapper lie. */
  lemma {:induction false} WrapperLayout<S>(convention: DiscriminatorConvention, wrapped: Serializer<Instance<S>>,
                                            nominalType: TypeName, value: Instance<S>, ts: seq<Token>, p: nat)
    requires At(ts, p, WrapperTokens(convention, wrapped, nominalType, value))
    ensures var d := convention.getDiscriminator(nominalType, value.runtimeType);
      var n := |WrapperTokens(convention, wrapped, nominalType, value)|;
      && n == 4 + |ValueTokens(d)| + |wrapped.serialize(value.runtimeType, value)|
      && At(ts, p, [StartDocument, Name(convention.elementName)] + ValueTokens(d) + [Name(PayloadName)])
      && ts[p + n - 1] == EndDocument
  {
    var d := convention.getDiscriminator(nominalType, value.runtimeType);
    var body := wrapped.serialize(value.runtimeType, value);
    var head := [StartDocument, Name(convention.elementName)] + ValueTokens(d) + [Name(PayloadName)];
    assert WrapperTokens(convention, wrapped, nominalType, value) == head + body + [EndDocument];
    AtSplit(ts, p, head + body, [EndDocument]);
    AtSplit(ts, p, head, body);
    AtHead(ts, p + |head| + |body|, [EndDocument]);
  }

  /** The second stage of Deserialize at a "_v" field whose payload is followed by the closing EndDocument. */
  lemma {:induction false} AcceptsPayload<S>(convention: DiscriminatorConvention, registry: map<TypeName, Serializer<Instance<S>>>,
                                             ts: seq<Token>, j: nat, actualType: TypeName, value: Instance<S>, k: nat)
    requires ReadNameAt(ts, j) == Success((PayloadName, j + 1))
    requires actualType in registry
    requires registry[actualType].deserialize(actualType, ts, j + 1) == Success((value, k))
    requires k < |ts| && ts[k] == EndDocument
    ensures DeserializeSecondFieldAt(convention, registry, ts, j, actualType) == Success((value, k + 1))
  {
    assert TypeAt(ts, k) == Success(EndOfDocument);
  }

  /**
   * Round trip: Deserialize reads back what Serialize wrote and stops just
   * after it, provided the convention resolves the runtime type from the
   * discriminator it produced and the registry's serializer for that type
   * reads back what the wrapped serializer wrote.
   */
  lemma {:induction false} RoundTrip<S>(convention: DiscriminatorConvention, wrapped: Serializer<Instance<S>>,
                     registry: map<TypeName, Serializer<Instance<S>>>,
                     nominalType: TypeName, value: Instance<S>, ts: seq<Token>, p: nat)
    requires At(ts, p, WrapperTokens(convention, wrapped, nominalType, value))
    requires convention.getActualType(ts, p, nominalType) == Success(value.runtimeType)
    requires value.runtimeType in registry
    requires var t := value.runtimeType;
      var q := p + 3 + |ValueTokens(convention.getDiscriminator(nominalType, t))|;
      registry[t].deserialize(t, ts, q) == Success((value, q + |wrapped.serialize(t, value)|))
    ensures DeserializeAt(convention, registry, ts, p, nominalType) ==
      Success((value, p + |WrapperTokens(convention, wrapped, nominalType, value)|))
  {
    var t := value.runtimeType;
    var d := convention.getDiscriminator(nominalType, t);
    WrapperLayout(convention, wrapped, nominalType, value, ts, p);
    DeserializePastFirstField(convention, registry, ts, p, nominalType, t, d, PayloadName);
    WrapperHeadAt(convention.elementName, ts, p, d, PayloadName);
    AcceptsPayload(convention, registry, ts, p + 2 + |ValueTokens(d)|, t, value,
                   p + |WrapperTokens(convention, wrapped, nominalType, value)| - 1);
  }
}
