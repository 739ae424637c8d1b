/**
 * BSON as the serializers see it: a stream of structural tokens.
 * The byte layout (length prefixes, type bytes, C-string names) is not
 * modelled; a document is StartDocument, then each element as a Name token
 * followed by the tokens of its value, then EndDocument. Array elements carry
 * no name token, because the reader hides the "0", "1", ... keys.
 */
module Bson {
  import opened Wrappers

  /** A double travels as its IEEE 754 bit pattern and is never computed on. */
  datatype Float64 = Float64(bits: bv64)

  /** The BSON types the model distinguishes, plus the end-of-document marker. */
  datatype BsonType = Double | String | Document | Array | Boolean | Null | EndOfDocument

  /** A value that is a single token on the stream. */
  datatype Scalar =
    | DoubleValue(d: Float64)
    | StringValue(s: string)
    | BooleanValue(b: bool)
    | NullValue

  /** A BSON value, such as a discriminator (a string or an array of strings). */
  datatype BsonValue =
    | Leaf(scalar: Scalar)
    | BsonArray(items: seq<BsonValue>)
    | BsonDocument(elements: seq<BsonElement>)

  datatype BsonElement = BsonElement(name: string, value: BsonValue)

  datatype Token =
    | StartDocument
    | EndDocument
    | StartArray
    | EndArray
    | Name(name: string)
    | Value(scalar: Scalar)

  // The fixed parts of the three wrapper messages.
  const FirstFieldLead: string := "Expected the first field of a discriminated wrapper to be '"
  const FirstFieldMiddle: string := "', not: '"
  const SecondFieldLead: string := "Expected the second field of a discriminated wrapper to be '_v', not: '"
  const TwoFieldsLead: string := "Expected a discriminated wrapper to be a document with exactly two fields, '"
  const TwoFieldsClose: string := "' and '_v'."
  const NameClose: string := "'."

  /** Where `x` sits in `a + x + b`. */
  lemma {:induction false} QuotedIn(a: string, x: string, b: string)
    ensures |a + x + b| == |a| + |x| + |b|
    ensures (a + x + b)[..|a|] == a
    ensures (a + x + b)[|a|..|a| + |x|] == x
    ensures (a + x + b)[|a| + |x|..] == b
  {
  }

  /** Why a wrapper document was refused; `Message` gives the exception text. */
  datatype FormatReason =
    | WrongFirstField(expected: string, found: string)
    | WrongSecondField(reported: string)
    | NotTwoFields(elementName: string)
  {
    /**
     * The text of the FormatException. Each message quotes its names at
     * fixed places: the first-field message the expected name after its
     * lead and the found name just before its close, the second-field
     * message the reported name just before its close, and the two-field
     * message the element name just before `' and '_v'.`.
     */
    function Message(): (m: string)
      ensures WrongFirstField? ==>
        var lead := FirstFieldLead + expected + FirstFieldMiddle;
        |lead| + |found| + |NameClose| == |m| && m[..|FirstFieldLead|] == FirstFieldLead &&
        m[|FirstFieldLead|..|FirstFieldLead| + |expected|] == expected &&
        m[|lead|..|lead| + |found|] == found && m[|lead| + |found|..] == NameClose
      ensures WrongSecondField? ==>
        |SecondFieldLead| + |reported| + |NameClose| == |m| && m[..|SecondFieldLead|] == SecondFieldLead &&
        m[|SecondFieldLead|..|SecondFieldLead| + |reported|] == reported && m[|SecondFieldLead| + |reported|..] == NameClose
      ensures NotTwoFields? ==>
        |TwoFieldsLead| + |elementName| + |TwoFieldsClose| == |m| && m[..|TwoFieldsLead|] == TwoFieldsLead &&
        m[|TwoFieldsLead|..|TwoFieldsLead| + |elementName|] == elementName && m[|TwoFieldsLead| + |elementName|..] == TwoFieldsClose
    {
      match this
      case WrongFirstField(expected, found) =>
        var lead := FirstFieldLead + expected + FirstFieldMiddle;
        QuotedIn(lead, found, NameClose);
        QuotedIn(FirstFieldLead, expected, FirstFieldMiddle);
        assert (lead + found + NameClose)[..|lead|] == lead;
        lead + found + NameClose
      case WrongSecondField(reported) =>
        QuotedIn(SecondFieldLead, reported, NameClose);
        SecondFieldLead + reported + NameClose
      case NotTwoFields(elementName) =>
        QuotedIn(TwoFieldsLead, elementName, TwoFieldsClose);
        TwoFieldsLead + elementName + TwoFieldsClose
    }
  }

  /** The exceptions a read or a (de)serialization can raise. */
  datatype BsonError =
    | EndOfStream(at: nat)                 // a read past the last token
    | InvalidOperation(call: string, at: nat)  // the token at the cursor does not suit the read call
    | FormatException(reason: FormatReason)
    | NoSerializer(typeName: string)       // the registry has no serializer for a type
    | SerializationException(message: string)  // raised by a collaborator (convention or inner serializer)

  function TypeOfScalar(s: Scalar): BsonType {
    match s
    case DoubleValue(_) => Double
    case StringValue(_) => String
    case BooleanValue(_) => Boolean
    case NullValue => Null
  }

  /** A token with which a value begins. */
  predicate StartsValue(t: Token) {
    t.StartDocument? || t.StartArray? || t.Value?
  }

  /** The type of the value that begins with token `t`. */
  function TypeOfValueStart(t: Token): (ty: BsonType)
    requires StartsValue(t)
    ensures ty != EndOfDocument
  {
    match t
    case StartDocument => Document
    case StartArray => Array
    case Value(s) => TypeOfScalar(s)
  }

  // ---- Serialization of BSON values to tokens ----

  function ValueTokens(v: BsonValue): (ts: seq<Token>)
    ensures |ts| > 0 && StartsValue(ts[0])
  {
    match v
    case Leaf(s) => [Value(s)]
    case BsonArray(items) => [StartArray] + ItemsTokens(items) + [EndArray]
    case BsonDocument(elements) => [StartDocument] + ElementsTokens(elements) + [EndDocument]
  }

  function ItemsTokens(items: seq<BsonValue>): seq<Token>
  {
    if items == [] then [] else ValueTokens(items[0]) + ItemsTokens(items[1..])
  }

  function ElementsTokens(elements: seq<BsonElement>): seq<Token>
  {
    if elements == [] then []
    else [Name(elements[0].name)] + ValueTokens(elements[0].value) + ElementsTokens(elements[1..])
  }

  // ---- What each read call does at position p (the reader's specification) ----

  /**
   * ReadBsonType / GetCurrentBsonType: the type of the element at p without
   * moving the cursor. At a Name it is the type of that element's value; at
   * the end of a document or array it is EndOfDocument.
   */
  function TypeAt(ts: seq<Token>, p: nat): (r: Result<BsonType, BsonError>)
    ensures r.Success? ==> p < |ts|
    ensures r == Success(EndOfDocument) <==> p < |ts| && (ts[p] == EndDocument || ts[p] == EndArray)
    ensures p + 1 < |ts| && ts[p].Name? && StartsValue(ts[p + 1]) ==> r == Success(TypeOfValueStart(ts[p + 1]))
  {
    if p >= |ts| then Failure(EndOfStream(p))
    else match ts[p]
      case EndDocument => Success(EndOfDocument)
      case EndArray => Success(EndOfDocument)
      case Name(_) =>
        if p + 1 >= |ts| then Failure(EndOfStream(p + 1))
        else if StartsValue(ts[p + 1]) then Success(TypeOfValueStart(ts[p + 1]))
        else Failure(InvalidOperation("ReadBsonType", p + 1))
      case _ => Success(TypeOfValueStart(ts[p]))
  }

  /** A read call that consumes exactly the token `expected` (ReadStartDocument, ReadEndArray, ReadNull, ...). */
  function ExpectAt(ts: seq<Token>, p: nat, expected: Token, call: string): (r: Result<nat, BsonError>)
    ensures r.Success? <==> p < |ts| && ts[p] == expected
    ensures r.Success? ==> r.value == p + 1
  {
    if p >= |ts| then Failure(EndOfStream(p))
    else if ts[p] == expected then Success(p + 1)
    else Failure(InvalidOperation(call, p))
  }

  /** ReadName: consumes a Name token and returns the name. */
  function ReadNameAt(ts: seq<Token>, p: nat): (r: Result<(string, nat), BsonError>)
    ensures r.Success? <==> p < |ts| && ts[p].Name?
    ensures r.Success? ==> ts[p] == Name(r.value.0) && r.value.1 == p + 1
  {
    if p >= |ts| then Failure(EndOfStream(p))
    else if ts[p].Name? then Success((ts[p].name, p + 1))
    else Failure(InvalidOperation("ReadName", p))
  }

  /** ReadDouble: consumes a double token and returns its bits unchanged. */
  function ReadDoubleAt(ts: seq<Token>, p: nat): (r: Result<(Float64, nat), BsonError>)
    ensures r.Success? <==> p < |ts| && ts[p].Value? && ts[p].scalar.DoubleValue?
    ensures r.Success? ==> ts[p] == Value(DoubleValue(r.value.0)) && r.value.1 == p + 1
  {
    if p >= |ts| then Failure(EndOfStream(p))
    else if ts[p].Value? && ts[p].scalar.DoubleValue? then Success((ts[p].scalar.d, p + 1))
    else Failure(InvalidOperation("ReadDouble", p))
  }

  /** How the nesting depth changes across one token. */
  function DepthChange(t: Token): int {
    match t
    case StartDocument => 1
    case StartArray => 1
    case EndDocument => -1
    case EndArray => -1
    case _ => 0
  }

  /**
   * SkipValue from position i, `depth` containers deep inside the value being
   * skipped: the position just after the token that closes the value.
   * Like the binary reader, which jumps over a length prefix, the skip does
   * not check what is inside the value.
   */
  function SkipFrom(ts: seq<Token>, i: nat, depth: nat): (r: Result<nat, BsonError>)
    ensures r.Success? ==> i < r.value <= |ts|
    decreases |ts| - i
  {
    if i >= |ts| then Failure(EndOfStream(i))
    else if depth == 0 && !StartsValue(ts[i]) then Failure(InvalidOperation("SkipValue", i))
    else
      var d := depth + DepthChange(ts[i]);
      if d <= 0 then Success(i + 1)
      else SkipFrom(ts, i + 1, d)
  }
}

module BsonLemmas {
  import opened Wrappers
  import opened Bson

  /** The first-field message tells which name was found: two messages for the same expected name agree exactly when the found names do. */
  lemma {:induction false} FirstFieldMessageShowsFound(expected: string, found1: string, found2: string)
    ensures WrongFirstField(expected, found1).Message() == WrongFirstField(expected, found2).Message() <==> found1 == found2
  {
    var m1, m2 := WrongFirstField(expected, found1).Message(), WrongFirstField(expected, found2).Message();
    if m1 == m2 {
      var lead := FirstFieldLead + expected + FirstFieldMiddle;
      assert |found1| == |found2|;
      assert found1 == m1[|lead|..|lead| + |found1|];
    }
  }

  /** The second-field message tells which name it reports: two such messages agree exactly when the reported names do. */
  lemma {:induction false} SecondFieldMessageShowsReported(reported1: string, reported2: string)
    ensures WrongSecondField(reported1).Message() == WrongSecondField(reported2).Message() <==> reported1 == reported2
  {
    var m1, m2 := WrongSecondField(reported1).Message(), WrongSecondField(reported2).Message();
    if m1 == m2 {
      assert |reported1| == |reported2|;
      assert reported1 == m1[|SecondFieldLead|..|SecondFieldLead| + |reported1|];
    }
  }

  /** `ts` holds `s` from position i on. */
  predicate At(ts: seq<Token>, i: nat, s: seq<Token>) {
    i + |s| <= |ts| && ts[i..i + |s|] == s
  }

  lemma {:induction false} AtSplit(ts: seq<Token>, i: nat, a: seq<Token>, b: seq<Token>)
    requires At(ts, i, a + b)
    ensures At(ts, i, a) && At(ts, i + |a|, b)
  {
    assert ts[i..i + |a|] == (a + b)[..|a|];
    assert ts[i + |a|..i + |a| + |b|] == (a + b)[|a|..];
  }

  lemma {:induction false} AtHead(ts: seq<Token>, i: nat, s: seq<Token>)
    requires |s| > 0 && At(ts, i, s)
    ensures ts[i] == s[0]
  {
    assert ts[i] == ts[i..i + |s|][0];
  }

  /**
   * Skipping over the tokens of a well-formed value: at depth 0 the skip ends
   * right after the value; deeper inside, the value is passed over and the
   * skip goes on from there.
   */
  lemma {:induction false} SkipOverValue(ts: seq<Token>, i: nat, depth: nat, v: BsonValue)
    requires At(ts, i, ValueTokens(v))
    ensures SkipFrom(ts, i, depth) ==
      if depth == 0 then Success(i + |ValueTokens(v)|) else SkipFrom(ts, i + |ValueTokens(v)|, depth)
    decreases v, 2
  {
    match v
    case Leaf(s) =>
      assert ts[i] == ValueTokens(v)[0];
    case BsonArray(items) => SkipOverArray(ts, i, depth, items);
    case BsonDocument(elements) => SkipOverDocument(ts, i, depth, elements);
  }

  lemma {:induction false} SkipOverArray(ts: seq<Token>, i: nat, depth: nat, items: seq<BsonValue>)
    requires At(ts, i, ValueTokens(BsonArray(items)))
    ensures var n := |ValueTokens(BsonArray(items))|;
      SkipFrom(ts, i, depth) == if depth == 0 then Success(i + n) else SkipFrom(ts, i + n, depth)
    decreases BsonArray(items), 1
  {
    var body := ItemsTokens(items);
    assert ValueTokens(BsonArray(items)) == [StartArray] + body + [EndArray];
    assert |ValueTokens(BsonArray(items))| == |body| + 2;
    AtSplit(ts, i, [StartArray] + body, [EndArray]);
    AtSplit(ts, i, [StartArray], body);
    SkipOverItems(ts, i + 1, depth + 1, items);
    SkipOverContainer(ts, i, depth, StartArray, body, EndArray);
  }

  lemma {:induction false} SkipOverDocument(ts: seq<Token>, i: nat, depth: nat, elements: seq<BsonElement>)
    requires At(ts, i, ValueTokens(BsonDocument(elements)))
    ensures var n := |ValueTokens(BsonDocument(elements))|;
      SkipFrom(ts, i, depth) == if depth == 0 then Success(i + n) else SkipFrom(ts, i + n, depth)
    decreases BsonDocument(elements), 1
  {
    var body := ElementsTokens(elements);
    assert ValueTokens(BsonDocument(elements)) == [StartDocument] + body + [EndDocument];
    assert |ValueTokens(BsonDocument(elements))| == |body| + 2;
    AtSplit(ts, i, [StartDocument] + body, [EndDocument]);
    AtSplit(ts, i, [StartDocument], body);
    SkipOverElements(ts, i + 1, depth + 1, elements);
    SkipOverContainer(ts, i, depth, StartDocument, body, EndDocument);
  }

  /** One container: its opening token, a body the skip passes over one level deeper, its closing token. */
  lemma {:induction false} SkipOverContainer(ts: seq<Token>, i: nat, depth: nat, open: Token, body: seq<Token>, close: Token)
    requires DepthChange(open) == 1 && DepthChange(close) == -1
    requires At(ts, i, [open] + body + [close])
    requires SkipFrom(ts, i + 1, depth + 1) == SkipFrom(ts, i + 1 + |body|, depth + 1)
    ensures SkipFrom(ts, i, depth) ==
      if depth == 0 then Success(i + |body| + 2) else SkipFrom(ts, i + |body| + 2, depth)
  {
    assert ts[i] == ([open] + body + [close])[0] == open;
    assert ts[i + 1 + |body|] == ([open] + body + [close])[1 + |body|] == close;
  }

  lemma {:induction false} SkipOverItems(ts: seq<Token>, i: nat, depth: nat, items: seq<BsonValue>)
    requires depth > 0 && At(ts, i, ItemsTokens(items))
    ensures SkipFrom(ts, i, depth) == SkipFrom(ts, i + |ItemsTokens(items)|, depth)
    decreases items, 1
  {
    if items != [] {
      var vt := ValueTokens(items[0]);
      AtSplit(ts, i, vt, ItemsTokens(items[1..]));
      SkipOverValue(ts, i, depth, items[0]);
      SkipOverItems(ts, i + |vt|, depth, items[1..]);
    }
  }

  lemma {:induction false} SkipOverElements(ts: seq<Token>, i: nat, depth: nat, elements: seq<BsonElement>)
    requires depth > 0 && At(ts, i, ElementsTokens(elements))
    ensures SkipFrom(ts, i, depth) == SkipFrom(ts, i + |ElementsTokens(elements)|, depth)
    decreases elements, 1
  {
    if elements != [] {
      var head := [Name(elements[0].name)] + ValueTokens(elements[0].value);
      assert ElementsTokens(elements) == head + ElementsTokens(elements[1..]);
      AtSplit(ts, i, head, ElementsTokens(elements[1..]));
      SkipOverElement(ts, i, depth, elements[0]);
      SkipOverElements(ts, i + |head|, depth, elements[1..]);
    }
  }

  /** One element inside a document: its name token, then its value. */
  lemma {:induction false} SkipOverElement(ts: seq<Token>, i: nat, depth: nat, e: BsonElement)
    requires depth > 0 && At(ts, i, [Name(e.name)] + ValueTokens(e.value))
    ensures SkipFrom(ts, i, depth) == SkipFrom(ts, i + 1 + |ValueTokens(e.value)|, depth)
    decreases e, 1
  {
    AtSplit(ts, i, [Name(e.name)], ValueTokens(e.value));
    AtHead(ts, i, [Name(e.name)]);
    SkipOverValue(ts, i + 1, depth, e.value);
  }

  /** SkipValue over a serialized value lands exactly after it. */
  lemma {:induction false} SkipValueOverValue(ts: seq<Token>, i: nat, v: BsonValue)
    requires At(ts, i, ValueTokens(v))
    ensures SkipFrom(ts, i, 0) == Success(i + |ValueTokens(v)|)
  {
    SkipOverValue(ts, i, 0, v);
  }
}
